/**
 ring_buffer_put by any number of writers and ring_buffer_get by one reader, interleaved at single
 atomic loads, stores and compare-exchanges and at the single bytes of the two memcpy calls, as long
 as the counters do not wrap.
 */
module ConcurrentRing {
  import opened Bytes

  type Item = seq<byte>

  /** A thread in ring_buffer_put: what it has loaded, or how much of its item it has copied. */
  datatype Writer =
    | Outside
    | AtTop(item: Item)
    | HasHead(item: Item, head: nat)
    | HasTail(item: Item, head: nat, tail: nat)
    | Copying(ticket: nat)

  /** The thread in ring_buffer_get. */
  datatype Reader =
    | Away
    | SawHead(head: nat)
    | SawTail(head: nat, tail: nat)
    | Fetching(head: nat, out: Item)

  /** History of a ticket: who took it, for which item, and how many bytes of it are in the buffer. */
  datatype Ticket = Ticket(owner: nat, item: Item, copied: nat)

  datatype State = State(
    size: nat, elem: nat,
    head: nat, tail: nat, guard: bool, cells: seq<Item>,
    writers: seq<Writer>, reader: Reader,
    initial: seq<Item>, tickets: seq<Ticket>, delivered: seq<Item>)

  datatype Step =
    | NewWriter
    | Enter(w: nat, item: Item)
    | LoadHead(w: nat)
    | LoadTail(w: nat)
    | TryReserve(w: nat)
    | CopyByte(w: nat)
    | RaiseGuard(w: nat)
    | ReadHead
    | ReadTail
    | Decide
    | FetchByte
    | Advance

  predicate Enabled(s: State, step: Step) {
    match step
    case NewWriter => true
    case Enter(w, item) => w < |s.writers| && s.writers[w].Outside? && |item| == s.elem
    case LoadHead(w) => w < |s.writers| && s.writers[w].AtTop?
    case LoadTail(w) => w < |s.writers| && s.writers[w].HasHead?
    case TryReserve(w) => w < |s.writers| && s.writers[w].HasTail? && s.writers[w].head <= s.writers[w].tail
    case CopyByte(w) =>
      w < |s.writers| && s.writers[w].Copying? && s.writers[w].ticket < |s.tickets| && 0 < s.size <= |s.cells| &&
      var t := s.tickets[s.writers[w].ticket];
      t.copied < |t.item| && t.copied < |s.cells[s.writers[w].ticket % s.size]|
    case RaiseGuard(w) =>
      w < |s.writers| && s.writers[w].Copying? && s.writers[w].ticket < |s.tickets| &&
      s.tickets[s.writers[w].ticket].copied == s.elem
    case ReadHead => s.reader.Away?
    case ReadTail => s.reader.SawHead?
    case Decide => s.reader.SawTail?
    case FetchByte =>
      s.reader.Fetching? && |s.reader.out| < s.elem && 0 < s.size <= |s.cells| &&
      |s.reader.out| < |s.cells[s.reader.head % s.size]|
    case Advance => s.reader.Fetching? && |s.reader.out| == s.elem
  }

  function SetWriter(s: State, w: nat, v: Writer): State
    requires w < |s.writers|
  {
    s.(writers := s.writers[w := v])
  }

  /** diff < size, and the compare-exchange finds tail unchanged. */
  predicate Reserves(s: State, w: nat)
    requires w < |s.writers| && s.writers[w].HasTail? && s.writers[w].head <= s.writers[w].tail
  {
    s.writers[w].tail - s.writers[w].head < s.size && s.tail == s.writers[w].tail
  }

  function Next(s: State, step: Step): State
    requires Enabled(s, step)
  {
    match step
    case NewWriter => s.(writers := s.writers + [Outside])
    case Enter(w, item) => SetWriter(s, w, AtTop(item))
    case LoadHead(w) => SetWriter(s, w, HasHead(s.writers[w].item, s.head))
    case LoadTail(w) => SetWriter(s, w, HasTail(s.writers[w].item, s.writers[w].head, s.tail))
    case TryReserve(w) =>
      var item := s.writers[w].item;
      if Reserves(s, w) then
        SetWriter(s, w, Copying(s.tail)).(tail := s.tail + 1, tickets := s.tickets + [Ticket(w, item, 0)])
      else
        SetWriter(s, w, AtTop(item))
    case CopyByte(w) =>
      var ticket := s.writers[w].ticket;
      var t := s.tickets[ticket];
      var pos := ticket % s.size;
      s.(cells := s.cells[pos := s.cells[pos][t.copied := t.item[t.copied]]],
      tickets := s.tickets[ticket := t.(copied := t.copied + 1)])
    case RaiseGuard(w) => SetWriter(s, w, Outside).(guard := true)
    case ReadHead => s.(reader := SawHead(s.head))
    case ReadTail => s.(reader := SawTail(s.reader.head, s.tail))
    case Decide =>
      if s.reader.head == s.reader.tail then s.(guard := false, reader := Away)
      else if s.guard then s.(reader := Fetching(s.reader.head, []))
      else s.(reader := Away)
    case FetchByte =>
      var cell := s.cells[s.reader.head % s.size];
      s.(reader := Fetching(s.reader.head, s.reader.out + [cell[|s.reader.out|]]))
    case Advance =>
      s.(head := s.reader.head + 1, reader := Away, delivered := s.delivered + [s.reader.out])
  }

  /** ring_buffer_init over memory that holds `initial`. */
  predicate Init(s: State) {
    && 1 <= s.size && s.head == s.tail == 0 && !s.guard && s.writers == [] && s.reader == Away
    && |s.initial| == s.size && s.cells == s.initial && (forall cell <- s.initial :: |cell| == s.elem)
    && s.tickets == [] && s.delivered == []
  }

  predicate Behaviour(states: seq<State>, steps: seq<Step>) {
    && |states| == |steps| + 1 && Init(states[0])
    && forall i | 0 <= i < |steps| :: Enabled(states[i], steps[i]) && states[i + 1] == Next(states[i], steps[i])
  }

  // ---------------------------------------------------------------------------------------------
  // Bounds and ownership, in every run
  // ---------------------------------------------------------------------------------------------

  predicate WriterOk(s: State, w: nat)
    requires w < |s.writers|
  {
    match s.writers[w]
    case AtTop(item) => |item| == s.elem
    case HasHead(item, h) => |item| == s.elem && h <= s.head
    case HasTail(item, h, t) => |item| == s.elem && h <= s.head && h <= t <= s.tail
    case Copying(ticket) => ticket < |s.tickets| && s.tickets[ticket].owner == w
    case _ => true
  }

  /** A ticket whose item is not all in the buffer is the one its owner is copying. */
  predicate TicketOk(s: State, t: nat)
    requires t < |s.tickets|
  {
    var k := s.tickets[t];
    && k.owner < |s.writers| && |k.item| == s.elem && k.copied <= s.elem
    && (k.copied < s.elem ==> s.writers[k.owner] == Copying(t))
  }

  predicate ReaderOk(s: State) {
    match s.reader
    case Away => true
    case SawHead(h) => h == s.head
    case SawTail(h, t) => h == s.head && h <= t <= s.tail
    case Fetching(h, out) => h == s.head < s.tail && |out| <= s.elem
  }

  predicate Bounds(s: State) {
    && 1 <= s.size && |s.cells| == s.size == |s.initial|
    && (forall i | 0 <= i < s.size :: |s.cells[i]| == s.elem == |s.initial[i]|)
    && s.head <= s.tail <= s.head + s.size
    && |s.tickets| == s.tail && |s.delivered| == s.head
    && ReaderOk(s)
    && (forall w | 0 <= w < |s.writers| :: WriterOk(s, w))
    && (forall t | 0 <= t < |s.tickets| :: TicketOk(s, t))
  }

  lemma BoundsInit(s: State)
    requires Init(s)
    ensures Bounds(s)
  {
    assert forall i | 0 <= i < s.size :: s.initial[i] in s.initial;
  }

  /** A step of writer w that leaves tickets and buffer alone. */
  lemma BoundsWriter(s: State, t: State, w: nat)
    requires Bounds(s) && w < |s.writers| == |t.writers|
    requires t == s.(writers := s.writers[w := t.writers[w]], guard := t.guard)
    requires WriterOk(t, w)
    requires s.writers[w].Copying? ==>
               s.writers[w].ticket < |s.tickets| && s.tickets[s.writers[w].ticket].copied == s.elem
    ensures Bounds(t)
  {
    forall v | 0 <= v < |t.writers| ensures WriterOk(t, v) {
      assert WriterOk(s, v);
    }
    forall k | 0 <= k < |t.tickets| ensures TicketOk(t, k) {
      assert TicketOk(s, k);
    }
  }

  lemma BoundsReserve(s: State, w: nat)
    requires Bounds(s) && Enabled(s, TryReserve(w)) && Reserves(s, w)
    ensures Bounds(Next(s, TryReserve(w)))
  {
    var t := Next(s, TryReserve(w));
    assert WriterOk(s, w);
    forall v | 0 <= v < |t.writers| ensures WriterOk(t, v) {
      assert WriterOk(s, v);
    }
    forall k | 0 <= k < |t.tickets| ensures TicketOk(t, k) {
      if k < |s.tickets| { assert TicketOk(s, k); }
    }
  }

  lemma BoundsCopy(s: State, w: nat)
    requires Bounds(s) && Enabled(s, CopyByte(w))
    ensures Bounds(Next(s, CopyByte(w)))
  {
    var t := Next(s, CopyByte(w));
    assert WriterOk(s, w);
    forall v | 0 <= v < |t.writers| ensures WriterOk(t, v) {
      assert WriterOk(s, v);
    }
    forall k | 0 <= k < |t.tickets| ensures TicketOk(t, k) {
      assert TicketOk(s, k);
    }
  }

  lemma BoundsReader(s: State, step: Step)
    requires Bounds(s) && Enabled(s, step)
    requires step.ReadHead? || step.ReadTail? || step.Decide? || step.FetchByte? || step.Advance? || step.NewWriter?
    ensures Bounds(Next(s, step))
  {
    var t := Next(s, step);
    forall v | 0 <= v < |t.writers| ensures WriterOk(t, v) {
      if v < |s.writers| { assert WriterOk(s, v); }
    }
    forall k | 0 <= k < |t.tickets| ensures TicketOk(t, k) {
      assert TicketOk(s, k);
    }
  }

  lemma BoundsKept(s: State, step: Step)
    requires Bounds(s) && Enabled(s, step)
    ensures Bounds(Next(s, step))
  {
    match step
    case Enter(w, _) => BoundsWriter(s, Next(s, step), w);
    case LoadHead(w) => assert WriterOk(s, w); BoundsWriter(s, Next(s, step), w);
    case LoadTail(w) => assert WriterOk(s, w); BoundsWriter(s, Next(s, step), w);
    case RaiseGuard(w) => BoundsWriter(s, Next(s, step), w);
    case TryReserve(w) =>
      if Reserves(s, w) { BoundsReserve(s, w); } else { assert WriterOk(s, w); BoundsWriter(s, Next(s, step), w); }
    case CopyByte(w) => BoundsCopy(s, w);
    case _ => BoundsReader(s, step);
  }

  lemma {:induction false} Reached(states: seq<State>, steps: seq<Step>, i: nat)
    requires Behaviour(states, steps) && i < |states|
    ensures Bounds(states[i])
  {
    if i == 0 {
      BoundsInit(states[0]);
    } else {
      Reached(states, steps, i - 1);
      BoundsKept(states[i - 1], steps[i - 1]);
    }
  }

  /**
   Stale loads never break the bound: head <= tail <= head + size in every reachable state, a writer's
   tail - head never goes below zero, and head and tail never move back.
   */
  lemma RingIsBounded(states: seq<State>, steps: seq<Step>, i: nat, w: nat)
    requires Behaviour(states, steps) && i < |states|
    ensures var s := states[i]; s.head <= s.tail <= s.head + s.size
    ensures var s := states[i];
            w < |s.writers| && s.writers[w].HasTail? ==> s.writers[w].head <= s.writers[w].tail <= s.tail
    ensures i < |steps| ==>
              states[i].head <= states[i + 1].head <= states[i].head + 1 && states[i].tail <= states[i + 1].tail
  {
    Reached(states, steps, i);
    assert w < |states[i].writers| ==> WriterOk(states[i], w);
    if i < |steps| { HeadAndTailGrow(states[i], steps[i]); }
  }

  lemma HeadAndTailGrow(s: State, step: Step)
    requires Bounds(s) && Enabled(s, step)
    ensures Next(s, step).tail == s.tail + (if TakesTicket(s, step) then 1 else 0)
    ensures Next(s, step).head == s.head + (if step.Advance? then 1 else 0)
  {
  }

  /** A compare-exchange that succeeds. */
  predicate TakesTicket(s: State, step: Step) {
    step.TryReserve? && Enabled(s, step) && Reserves(s, step.w)
  }

  /** The put whose compare-exchange is step q takes ticket t. */
  predicate TakesAt(states: seq<State>, steps: seq<Step>, q: nat, t: nat)
    requires Behaviour(states, steps) && q < |steps|
  {
    TakesTicket(states[q], steps[q]) && states[q].tail == t
  }

  /** The get whose store to head is step q has fetched ticket t. */
  predicate FetchedAt(states: seq<State>, steps: seq<Step>, q: nat, t: nat)
    requires Behaviour(states, steps) && q < |steps|
  {
    steps[q].Advance? && states[q].head == t
  }

  /** How many puts have succeeded, and how many gets, in the first q steps. */
  function Puts(states: seq<State>, steps: seq<Step>, q: nat): nat
    requires Behaviour(states, steps) && q <= |steps|
  {
    if q == 0 then 0
    else Puts(states, steps, q - 1) + if TakesTicket(states[q - 1], steps[q - 1]) then 1 else 0
  }

  function Gets(steps: seq<Step>, q: nat): nat
    requires q <= |steps|
  {
    if q == 0 then 0 else Gets(steps, q - 1) + if steps[q - 1].Advance? then 1 else 0
  }

  /** What a step of a run does to the counters. */
  lemma RunStep(states: seq<State>, steps: seq<Step>, q: nat)
    requires Behaviour(states, steps) && q < |steps| && q + 1 < |states|
    ensures states[q + 1].tail == states[q].tail + (if TakesTicket(states[q], steps[q]) then 1 else 0)
    ensures states[q + 1].head == states[q].head + (if steps[q].Advance? then 1 else 0)
  {
    Reached(states, steps, q);
    HeadAndTailGrow(states[q], steps[q]);
  }

  /** Counting: the k-th successful put takes ticket k, and the k-th get fetches ticket k. */
  lemma {:induction false} CountersCount(states: seq<State>, steps: seq<Step>, q: nat)
    requires Behaviour(states, steps) && q <= |steps|
    ensures states[q].tail == Puts(states, steps, q) && states[q].head == Gets(steps, q)
  {
    if q == 0 {
      assert Init(states[0]);
    } else {
      assert |states| == |steps| + 1;
      hide Behaviour, TakesTicket;
      CountersCount(states, steps, q - 1);
      RunStep(states, steps, q - 1);
    }
  }

  lemma {:induction false} CountersGrow(states: seq<State>, steps: seq<Step>, q: nat, r: nat)
    requires Behaviour(states, steps) && q <= r <= |steps| < |states|
    ensures states[q].tail <= states[r].tail && states[q].head <= states[r].head
    decreases r
  {
    hide Behaviour, TakesTicket;
    if q == r {
      assert states[q].tail <= states[r].tail;
    } else {
      CountersGrow(states, steps, q, r - 1);
      RunStep(states, steps, r - 1);
    }
  }

  /** What a step does to a ticket and to an item delivered before it. */
  lemma TicketStays(s: State, step: Step, t: nat)
    requires Bounds(s) && Enabled(s, step)
    ensures t < s.tail ==>
              var u := Next(s, step);
              t < |u.tickets| && u.tickets[t].owner == s.tickets[t].owner && u.tickets[t].item == s.tickets[t].item
    ensures t < s.head ==> t < |Next(s, step).delivered| && Next(s, step).delivered[t] == s.delivered[t]
  {
  }

  /** Every ticket below tail was taken by exactly one put, and holds that writer's name and item. */
  lemma {:induction false} TicketWasTaken(states: seq<State>, steps: seq<Step>, i: nat, t: nat) returns (q: nat)
    requires Behaviour(states, steps) && i < |states| && t < states[i].tail
    ensures q < i && TakesAt(states, steps, q, t)
    ensures t < |states[i].tickets| && states[q].writers[steps[q].w].HasTail?
    ensures states[i].tickets[t].owner == steps[q].w
    ensures states[i].tickets[t].item == states[q].writers[steps[q].w].item
  {
    Reached(states, steps, i);
    if i == 0 {
      assert false;
    } else {
      Reached(states, steps, i - 1);
      HeadAndTailGrow(states[i - 1], steps[i - 1]);
      if t < states[i - 1].tail {
        q := TicketWasTaken(states, steps, i - 1, t);
        TicketStays(states[i - 1], steps[i - 1], t);
      } else {
        q := i - 1;
      }
    }
  }

  /** Every ticket below head was fetched by exactly one get, which delivered what it had read. */
  lemma {:induction false} TicketWasFetched(states: seq<State>, steps: seq<Step>, i: nat, t: nat) returns (q: nat)
    requires Behaviour(states, steps) && i < |states| && t < states[i].head
    ensures q < i && FetchedAt(states, steps, q, t)
    ensures t < |states[i].delivered| && states[q].reader.Fetching? && states[i].delivered[t] == states[q].reader.out
  {
    Reached(states, steps, i);
    if i == 0 {
      assert false;
    } else {
      Reached(states, steps, i - 1);
      HeadAndTailGrow(states[i - 1], steps[i - 1]);
      if t < states[i - 1].head {
        q := TicketWasFetched(states, steps, i - 1, t);
        TicketStays(states[i - 1], steps[i - 1], t);
      } else {
        q := i - 1;
      }
    }
  }

  /** Exactly one of the first i steps took ticket t, and t is still its writer's and holds its item. */
  ghost predicate TakenOnce(states: seq<State>, steps: seq<Step>, i: nat, t: nat)
    requires Behaviour(states, steps) && i < |states|
  {
    exists q: nat :: q < i && TakesAt(states, steps, q, t) && t < |states[i].tickets| &&
                     states[q].writers[steps[q].w].HasTail? &&
                     states[i].tickets[t].owner == steps[q].w &&
                     states[i].tickets[t].item == states[q].writers[steps[q].w].item &&
                     forall r: nat :: r < i && TakesAt(states, steps, r, t) ==> r == q
  }

  /** Exactly one of the first i steps fetched ticket t, and delivered as item t what it had read. */
  ghost predicate FetchedOnce(states: seq<State>, steps: seq<Step>, i: nat, t: nat)
    requires Behaviour(states, steps) && i < |states|
  {
    exists q: nat :: q < i && FetchedAt(states, steps, q, t) && t < |states[i].delivered| &&
                     states[q].reader.Fetching? && states[i].delivered[t] == states[q].reader.out &&
                     forall r: nat :: r < i && FetchedAt(states, steps, r, t) ==> r == q
  }

  lemma TakenAtMostOnce(states: seq<State>, steps: seq<Step>, t: nat, q: nat, r: nat)
    requires Behaviour(states, steps) && q < r < |steps|
    ensures !(TakesAt(states, steps, q, t) && TakesAt(states, steps, r, t))
    ensures !(FetchedAt(states, steps, q, t) && FetchedAt(states, steps, r, t))
  {
    CountersGrow(states, steps, q + 1, r);
    Reached(states, steps, q);
    HeadAndTailGrow(states[q], steps[q]);
  }

  lemma TakenIsTakenOnce(states: seq<State>, steps: seq<Step>, i: nat, t: nat)
    requires Behaviour(states, steps) && i < |states|
    ensures t < states[i].tail <==> TakenOnce(states, steps, i, t)
  {
    assert |states| == |steps| + 1;
    assert |states[i].tickets| == states[i].tail by { Reached(states, steps, i); }
    hide Behaviour, TakesAt;
    if t < states[i].tail {
      var q := TicketWasTaken(states, steps, i, t);
      forall r: nat | r < i && TakesAt(states, steps, r, t) ensures r == q {
        if q < r { TakenAtMostOnce(states, steps, t, q, r); }
        if r < q { TakenAtMostOnce(states, steps, t, r, q); }
      }
    }
  }

  lemma FetchedIsFetchedOnce(states: seq<State>, steps: seq<Step>, i: nat, t: nat)
    requires Behaviour(states, steps) && i < |states|
    ensures t < states[i].head <==> FetchedOnce(states, steps, i, t)
  {
    assert |states| == |steps| + 1;
    assert |states[i].delivered| == states[i].head by { Reached(states, steps, i); }
    hide Behaviour, FetchedAt;
    if t < states[i].head {
      var q := TicketWasFetched(states, steps, i, t);
      forall r: nat | r < i && FetchedAt(states, steps, r, t) ensures r == q {
        if q < r { TakenAtMostOnce(states, steps, t, q, r); }
        if r < q { TakenAtMostOnce(states, steps, t, r, q); }
      }
    }
  }

  /**
   Ownership over a run, in each of its states and for each ticket t: the counters are the numbers of puts
   and of gets so far; below tail, exactly one put took t; below head, exactly one get fetched it; and two
   writers that copy at the same time copy to different tickets.
   */
  lemma TicketsAreUnique(states: seq<State>, steps: seq<Step>, i: nat, t: nat)
    requires Behaviour(states, steps) && i < |states|
    ensures states[i].tail == Puts(states, steps, i) && states[i].head == Gets(steps, i)
    ensures t < states[i].tail <==> TakenOnce(states, steps, i, t)
    ensures t < states[i].head <==> FetchedOnce(states, steps, i, t)
    ensures var ws := states[i].writers;
            forall v, w | 0 <= v < w < |ws| && ws[v].Copying? && ws[w].Copying? :: ws[v].ticket != ws[w].ticket
  {
    assert |states| == |steps| + 1;
    hide Behaviour, TakenOnce, FetchedOnce;
    CountersCount(states, steps, i);
    TakenIsTakenOnce(states, steps, i, t);
    FetchedIsFetchedOnce(states, steps, i, t);
    WritersApart(states, steps, i);
  }

  lemma WritersApart(states: seq<State>, steps: seq<Step>, i: nat)
    requires Behaviour(states, steps) && i < |states|
    ensures var ws := states[i].writers;
            forall v, w | 0 <= v < w < |ws| && ws[v].Copying? && ws[w].Copying? :: ws[v].ticket != ws[w].ticket
  {
    Reached(states, steps, i);
    var s := states[i];
    forall v, w | 0 <= v < w < |s.writers| && s.writers[v].Copying? && s.writers[w].Copying?
      ensures s.writers[v].ticket != s.writers[w].ticket
    {
      assert WriterOk(s, v) && WriterOk(s, w);
    }
  }

  // ---------------------------------------------------------------------------------------------
  // Contents
  // ---------------------------------------------------------------------------------------------

  /** What lies in the slot of ticket t before its put writes to it. */
  function Leftover(s: State, t: nat): Item
    requires Bounds(s) && t < s.head + s.size
  {
    if t < s.size then s.initial[t] else s.tickets[t - s.size].item
  }

  /** The first n bytes of an item over what lay there before. */
  function Over(item: Item, left: Item, n: nat): Item
    requires n <= |item| == |left|
  {
    item[..n] + left[n..]
  }

  /** What lies in the slot of ticket t now: the part of its item that has been copied, before the leftover. */
  function Content(s: State, t: nat): Item
    requires Bounds(s) && t < s.head + s.size
  {
    if t < s.tail then
      assert TicketOk(s, t);
      var k := s.tickets[t];
      assert t < s.size || TicketOk(s, t - s.size);
      Over(k.item, Leftover(s, t), k.copied)
    else Leftover(s, t)
  }

  /** The item of ticket t is in the buffer. */
  predicate Stored(s: State, t: nat) {
    t < |s.tickets| && s.tickets[t].copied == s.elem
  }

  /** The slots of the window and the items delivered are what the tickets say. */
  predicate Window(s: State)
    requires Bounds(s)
  {
    && (forall t | s.head <= t < s.head + s.size :: s.cells[t % s.size] == Content(s, t))
    && (forall t | 0 <= t < s.head :: Stored(s, t) && s.delivered[t] == s.tickets[t].item)
  }

  /** The slot of the next ticket to be fetched holds its item, copied by its put or left there by luck. */
  predicate Settled(s: State)
    requires Bounds(s)
  {
    s.head < s.tail && Content(s, s.head) == s.tickets[s.head].item
  }

  /** A fetch that ends delivers its ticket's item, and the ticket's put has nothing left to copy. */
  predicate EndsWell(s: State, step: Step) {
    step.Advance? ==> s.reader.Fetching? && Stored(s, s.head) && s.reader.out == s.tickets[s.head].item
  }

  lemma SameSlotAgain(t: nat, size: nat)
    requires 1 <= size
    ensures (t + size) % size == t % size
  {
    var q := t / size;
    assert t == q * size + t % size;
    assert t + size == (q + 1) * size + t % size;
    DivModOf(q + 1, size, t % size);
  }

  lemma WindowInit(s: State)
    requires Init(s)
    ensures Bounds(s) && Window(s)
  {
    BoundsInit(s);
    forall t | s.head <= t < s.head + s.size ensures s.cells[t % s.size] == Content(s, t) {
      DivModOf(0, s.size, t);
    }
  }

  /** Steps that move no byte, no ticket and not the head. */
  lemma WindowFrame(s: State, t: State)
    requires Bounds(s) && Window(s) && Bounds(t)
    requires t == s.(writers := t.writers, guard := t.guard, reader := t.reader)
    ensures Window(t)
  {
    forall k | t.head <= k < t.head + t.size ensures t.cells[k % t.size] == Content(t, k) {
      assert s.cells[k % s.size] == Content(s, k);
    }
    forall k | 0 <= k < t.head ensures Stored(t, k) && t.delivered[k] == t.tickets[k].item {
      assert Stored(s, k);
    }
  }

  lemma WindowReserve(s: State, w: nat)
    requires Bounds(s) && Window(s) && Enabled(s, TryReserve(w)) && Reserves(s, w) && Bounds(Next(s, TryReserve(w)))
    ensures Window(Next(s, TryReserve(w)))
  {
    var t := Next(s, TryReserve(w));
    forall k | t.head <= k < t.head + t.size ensures t.cells[k % t.size] == Content(t, k) {
      assert s.cells[k % s.size] == Content(s, k);
      if k == s.tail { assert t.tickets[k].item[..0] + Leftover(t, k)[0..] == Leftover(s, k); }
    }
    forall k | 0 <= k < t.head ensures Stored(t, k) && t.delivered[k] == t.tickets[k].item {
      assert Stored(s, k);
    }
  }

  /** One more byte of an item over the leftover. */
  lemma ByteCopied(item: Item, left: Item, n: nat)
    requires n < |item| == |left|
    ensures Over(item, left, n)[n := item[n]] == Over(item, left, n + 1)
  {
  }

  /** A writer that is still copying holds a ticket of the window. */
  lemma CopiesIntoTheWindow(s: State, w: nat)
    requires Bounds(s) && Window(s) && Enabled(s, CopyByte(w))
    ensures s.head <= s.writers[w].ticket < s.tail
    ensures s.tickets[s.writers[w].ticket].copied < s.elem
  {
    assert WriterOk(s, w) && TicketOk(s, s.writers[w].ticket);
    assert forall k | 0 <= k < s.head :: Stored(s, k);
  }

  lemma WindowCopyMine(s: State, w: nat)
    requires Bounds(s) && Window(s) && Enabled(s, CopyByte(w)) && Bounds(Next(s, CopyByte(w)))
    requires s.head <= s.writers[w].ticket < s.tail
    ensures var t, k := Next(s, CopyByte(w)), s.writers[w].ticket; t.cells[k % t.size] == Content(t, k)
  {
    var k := s.writers[w].ticket;
    assert s.cells[k % s.size] == Content(s, k);
    assert TicketOk(s, k);
    LeftoverLength(s, k);
    ByteCopied(s.tickets[k].item, Leftover(s, k), s.tickets[k].copied);
    assert Leftover(Next(s, CopyByte(w)), k) == Leftover(s, k);
  }

  lemma WindowCopyOther(s: State, w: nat, k: nat)
    requires Bounds(s) && Window(s) && Enabled(s, CopyByte(w)) && Bounds(Next(s, CopyByte(w)))
    requires s.head <= s.writers[w].ticket < s.tail && s.head <= k < s.head + s.size && k != s.writers[w].ticket
    ensures var t := Next(s, CopyByte(w)); t.cells[k % t.size] == Content(t, k)
  {
    var t, mine := Next(s, CopyByte(w)), s.writers[w].ticket;
    assert s.cells[k % s.size] == Content(s, k);
    if k < mine { Apart(k, mine, s.size); } else { Apart(mine, k, s.size); }
    assert t.cells[k % t.size] == s.cells[k % s.size];
    hide Bounds;
    assert Leftover(t, k) == Leftover(s, k);
  }

  lemma WindowCopyPast(s: State, w: nat)
    requires Bounds(s) && Window(s) && Enabled(s, CopyByte(w)) && Bounds(Next(s, CopyByte(w)))
    requires s.head <= s.writers[w].ticket
    ensures var t := Next(s, CopyByte(w));
            forall k | 0 <= k < t.head :: Stored(t, k) && t.delivered[k] == t.tickets[k].item
  {
    var t := Next(s, CopyByte(w));
    forall k | 0 <= k < t.head ensures Stored(t, k) && t.delivered[k] == t.tickets[k].item {
      assert Stored(s, k);
    }
  }

  lemma WindowCopy(s: State, w: nat)
    requires Bounds(s) && Window(s) && Enabled(s, CopyByte(w)) && Bounds(Next(s, CopyByte(w)))
    ensures Window(Next(s, CopyByte(w)))
  {
    var t := Next(s, CopyByte(w));
    CopiesIntoTheWindow(s, w);
    WindowCopyPast(s, w);
    forall k | t.head <= k < t.head + t.size ensures t.cells[k % t.size] == Content(t, k) {
      if k == s.writers[w].ticket { WindowCopyMine(s, w); } else { WindowCopyOther(s, w, k); }
    }
  }

  lemma LeftoverLength(s: State, t: nat)
    requires Bounds(s) && t < s.head + s.size
    ensures |Leftover(s, t)| == s.elem
  {
    if s.size <= t { assert TicketOk(s, t - s.size); }
  }

  /** The slot of a stored ticket holds its item. */
  lemma StoredContent(s: State, t: nat)
    requires Bounds(s) && s.head <= t < s.tail && Stored(s, t)
    ensures Content(s, t) == s.tickets[t].item
  {
    assert TicketOk(s, t);
    LeftoverLength(s, t);
  }

  /** The slot the reader gives up is the next one to be written. */
  lemma SlotGivenUp(s: State)
    requires Bounds(s) && Window(s) && Enabled(s, Advance) && EndsWell(s, Advance) && Bounds(Next(s, Advance))
    ensures var t, k := Next(s, Advance), s.head + s.size; t.cells[k % t.size] == Content(t, k)
  {
    SameSlotAgain(s.head, s.size);
    assert s.cells[s.head % s.size] == Content(s, s.head);
    StoredContent(s, s.head);
  }

  lemma SameContent(s: State, t: State, k: nat)
    requires Bounds(s) && Bounds(t) && k < s.head + s.size && k < t.head + t.size
    requires t.tickets == s.tickets && t.tail == s.tail && t.initial == s.initial && t.size == s.size
    ensures Content(t, k) == Content(s, k)
  {
    assert Leftover(t, k) == Leftover(s, k);
    hide Bounds, Leftover;
  }

  lemma SlotKeptByAdvance(s: State, k: nat)
    requires Bounds(s) && Window(s) && Enabled(s, Advance) && Bounds(Next(s, Advance))
    requires s.head < k < s.head + s.size
    ensures var t := Next(s, Advance); t.cells[k % t.size] == Content(t, k)
  {
    assert s.cells[k % s.size] == Content(s, k);
    hide Content;
    SameContent(s, Next(s, Advance), k);
  }

  lemma WindowAdvance(s: State)
    requires Bounds(s) && Window(s) && Enabled(s, Advance) && EndsWell(s, Advance) && Bounds(Next(s, Advance))
    ensures Window(Next(s, Advance))
  {
    var t := Next(s, Advance);
    forall k | t.head <= k < t.head + t.size ensures t.cells[k % t.size] == Content(t, k) {
      if k == s.head + s.size { SlotGivenUp(s); } else { SlotKeptByAdvance(s, k); }
    }
    hide Content, Bounds;
    forall k | 0 <= k < t.head ensures Stored(t, k) && t.delivered[k] == t.tickets[k].item {
      if k < s.head { assert Stored(s, k); }
    }
  }

  /** Every step keeps the window, as long as fetches end well. */
  lemma WindowKept(s: State, step: Step)
    requires Bounds(s) && Window(s) && Enabled(s, step) && EndsWell(s, step)
    ensures Bounds(Next(s, step)) && Window(Next(s, step))
  {
    BoundsKept(s, step);
    hide Window, Bounds;
    if step.Advance? {
      WindowAdvance(s);
    } else if step.TryReserve? && Reserves(s, step.w) {
      WindowReserve(s, step.w);
    } else if step.CopyByte? {
      WindowCopy(s, step.w);
    } else {
      WindowFrame(s, Next(s, step));
    }
  }

  /** A ticket keeps its item, and what is stored stays stored. */
  lemma TicketsKept(s: State, step: Step, k: nat)
    requires Bounds(s) && Enabled(s, step) && k < |s.tickets|
    ensures var t := Next(s, step);
            k < |t.tickets| && t.tickets[k].item == s.tickets[k].item && (Stored(s, k) ==> Stored(t, k))
  {
    assert TicketOk(s, k);
  }

  // ---------------------------------------------------------------------------------------------
  // Delivery
  // ---------------------------------------------------------------------------------------------

  /** Every fetch in the first n steps that ended has ended well. */
  predicate FetchesEndedWell(states: seq<State>, steps: seq<Step>, n: nat)
    requires n <= |steps| < |states|
  {
    forall i | 0 <= i < n :: EndsWell(states[i], steps[i])
  }

  lemma {:induction false} ReachedWell(states: seq<State>, steps: seq<Step>, i: nat)
    requires Behaviour(states, steps) && i < |states| && FetchesEndedWell(states, steps, i)
    ensures Bounds(states[i]) && Window(states[i])
  {
    if i == 0 {
      WindowInit(states[0]);
    } else {
      ReachedWell(states, steps, i - 1);
      WindowKept(states[i - 1], steps[i - 1]);
    }
  }

  /** The step by which the reader finds the guard up and begins to copy out. */
  predicate StartsFetch(s: State, step: Step) {
    step.Decide? && s.reader.SawTail? && s.reader.head != s.reader.tail && s.guard
  }

  /** If put k copies into the next ticket's slot, what it has left to copy is what that ticket's item has there. */
  predicate Agrees(s: State, k: nat)
    requires Bounds(s) && s.head < s.tail && k < s.tail
  {
    var c := s.tickets[k].copied;
    assert TicketOk(s, k) && TicketOk(s, s.head);
    k % s.size == s.head % s.size ==> s.tickets[k].item[c..] == s.tickets[s.head].item[c..]
  }

  /** The slot of the next ticket to be fetched holds its item, and no put has yet to write anything else there. */
  predicate Undisputed(s: State)
    requires Bounds(s)
  {
    && s.head < s.tail && s.cells[s.head % s.size] == s.tickets[s.head].item
    && forall k | 0 <= k < s.tail :: Agrees(s, k)
  }

  /** While fetches end well no put is late: whatever has bytes left to copy copies to a slot of its own. */
  lemma NoPutIsLate(s: State, k: nat)
    requires Bounds(s) && Window(s) && s.head < s.tail && k < s.tail && k != s.head
    ensures Stored(s, k) || k % s.size != s.head % s.size
  {
    if s.head < k { Apart(s.head, k, s.size); }
  }

  /** So only the next ticket's own put has a say. */
  lemma WindowUndisputed(s: State)
    requires Bounds(s) && Window(s) && s.head < s.tail
    ensures Undisputed(s) <==> Settled(s)
  {
    assert s.cells[s.head % s.size] == Content(s, s.head);
    if Settled(s) {
      forall k | 0 <= k < s.tail ensures Agrees(s, k) {
        assert TicketOk(s, k) && TicketOk(s, s.head);
        if k != s.head { NoPutIsLate(s, k); }
      }
    }
  }

  /** A ticket that has just been taken is for another slot than the next one to be fetched. */
  lemma NewTicketApart(s: State, w: nat)
    requires Bounds(s) && s.head < s.tail && Enabled(s, TryReserve(w)) && Reserves(s, w)
    ensures s.tail % s.size != s.head % s.size
  {
    assert WriterOk(s, w);
    Apart(s.head, s.tail, s.size);
  }

  lemma AgreesKept(s: State, step: Step, k: nat)
    requires Bounds(s) && s.head < s.tail && Enabled(s, step) && !step.Advance? && Bounds(Next(s, step))
    requires k < s.tail && Agrees(s, k)
    ensures k < Next(s, step).tail && s.head == Next(s, step).head && Agrees(Next(s, step), k)
  {
    var t := Next(s, step);
    assert TicketOk(s, k) && TicketOk(s, s.head);
    assert t.tickets[k].item == s.tickets[k].item && t.tickets[s.head].item == s.tickets[s.head].item;
    var c, d := s.tickets[k].copied, t.tickets[k].copied;
    assert c <= d <= c + 1;
    if k % s.size == s.head % s.size {
      assert s.tickets[k].item[d..] == s.tickets[k].item[c..][d - c..];
      assert s.tickets[s.head].item[d..] == s.tickets[s.head].item[c..][d - c..];
    }
  }

  /** A byte that a put which agrees with the slot copies to it changes nothing. */
  lemma SlotKept(s: State, step: Step)
    requires Bounds(s) && Undisputed(s) && Enabled(s, step) && !step.Advance?
    ensures Next(s, step).cells[s.head % s.size] == s.cells[s.head % s.size]
  {
    if step.CopyByte? {
      var k := s.writers[step.w].ticket;
      var c := s.tickets[k].copied;
      assert Agrees(s, k) && TicketOk(s, k) && TicketOk(s, s.head);
      if k % s.size == s.head % s.size {
        assert s.tickets[k].item[c..][0] == s.tickets[s.head].item[c..][0];
      }
    }
  }

  /** An undisputed slot stays so until the reader moves on. */
  lemma UndisputedKept(s: State, step: Step)
    requires Bounds(s) && Undisputed(s) && Enabled(s, step) && !step.Advance? && Bounds(Next(s, step))
    ensures Undisputed(Next(s, step)) && Next(s, step).head == s.head && Next(s, step).delivered == s.delivered
    ensures Next(s, step).tickets[s.head].item == s.tickets[s.head].item
  {
    var t := Next(s, step);
    SlotKept(s, step);
    TicketsKept(s, step, s.head);
    HeadAndTailGrow(s, step);
    forall k | 0 <= k < t.tail ensures Agrees(t, k) {
      if k < s.tail { AgreesKept(s, step, k); } else { NewTicketApart(s, step.w); }
    }
  }

  /** What the fetch under way has read is the beginning of an item its slot holds. */
  predicate FetchesRight(s: State)
    requires Bounds(s)
  {
    s.reader.Fetching? && Undisputed(s) && s.reader.out <= s.tickets[s.head].item
  }

  lemma FetchGoesOn(s: State, step: Step)
    requires Bounds(s) && Enabled(s, step) && s.reader.Fetching? && !step.Advance?
    ensures var t := Next(s, step); t.reader.Fetching? && (!step.FetchByte? ==> t.reader == s.reader)
  {
  }

  lemma FetchesRightKept(s: State, step: Step)
    requires Bounds(s) && FetchesRight(s) && Enabled(s, step) && !step.Advance? && Bounds(Next(s, step))
    ensures FetchesRight(Next(s, step))
  {
    UndisputedKept(s, step);
    FetchGoesOn(s, step);
  }

  lemma FetchStarts(s: State)
    requires Bounds(s) && Enabled(s, Decide) && StartsFetch(s, Decide) && Undisputed(s) && Bounds(Next(s, Decide))
    ensures FetchesRight(Next(s, Decide))
  {
    UndisputedKept(s, Decide);
  }

  /** Steps that lead from s to t without the end of a fetch. */
  predicate Within(s: State, steps: seq<Step>, t: State)
    decreases |steps|
  {
    if steps == [] then t == s
    else Enabled(s, steps[0]) && !steps[0].Advance? && Within(Next(s, steps[0]), steps[1..], t)
  }

  /** A whole fetch, among any other steps: it starts in s, and its last step leads to t. */
  ghost predicate FetchRun(s: State, steps: seq<Step>, t: State) {
    && Enabled(s, Decide) && StartsFetch(s, Decide)
    && exists r :: Within(Next(s, Decide), steps, r) && Enabled(r, Advance) && t == Next(r, Advance)
  }

  predicate Delivers(s: State, t: State) {
    s.head < |s.tickets| && t.delivered == s.delivered + [s.tickets[s.head].item]
  }

  lemma FetchStep(s: State, step: Step)
    requires Bounds(s) && FetchesRight(s) && Enabled(s, step) && !step.Advance?
    ensures Bounds(Next(s, step)) && FetchesRight(Next(s, step))
    ensures Next(s, step).head == s.head < |s.tickets| && Next(s, step).delivered == s.delivered
    ensures s.head < |Next(s, step).tickets| && Next(s, step).tickets[s.head].item == s.tickets[s.head].item
  {
    BoundsKept(s, step);
    FetchesRightKept(s, step);
    UndisputedKept(s, step);
  }

  /** Until its last step, a fetch that has started in an undisputed slot reads the item. */
  lemma {:induction false} WithinIsRight(s: State, steps: seq<Step>, t: State)
    requires Bounds(s) && FetchesRight(s) && Within(s, steps, t)
    ensures Bounds(t) && FetchesRight(t)
    ensures t.head == s.head < |s.tickets| && t.delivered == s.delivered
    ensures s.head < |t.tickets| && t.tickets[s.head].item == s.tickets[s.head].item
    decreases |steps|
  {
    if steps == [] {
      assert t == s;
    } else {
      FetchStep(s, steps[0]);
      hide Bounds, FetchesRight, Next, Enabled;
      WithinIsRight(Next(s, steps[0]), steps[1..], t);
    }
  }

  lemma UndisputedFetchDelivers(s: State, steps: seq<Step>, t: State)
    requires Bounds(s) && Undisputed(s) && FetchRun(s, steps, t)
    ensures Delivers(s, t)
  {
    var u := Next(s, Decide);
    BoundsKept(s, Decide);
    FetchStarts(s);
    UndisputedKept(s, Decide);
    hide Undisputed;
    var r :| Within(u, steps, r) && Enabled(r, Advance) && t == Next(r, Advance);
    WithinIsRight(u, steps, r);
    FetchEnds(r);
  }

  lemma FetchEnds(s: State)
    requires Bounds(s) && FetchesRight(s) && Enabled(s, Advance)
    ensures s.reader.out == s.tickets[s.head].item
  {
    assert TicketOk(s, s.head);
  }

  /** s, with a fetch under way that has read `out`. */
  function Having(s: State, out: Item): State {
    s.(reader := Fetching(s.head, out))
  }

  lemma FetchesByte(s: State, c: Item, n: nat)
    requires 0 < s.size <= |s.cells| && s.cells[s.head % s.size] == c && n < s.elem == |c|
    ensures Enabled(Having(s, c[..n]), FetchByte)
    ensures Next(Having(s, c[..n]), FetchByte) == Having(s, c[..n + 1])
  {
    assert c[..n + 1] == c[..n] + [c[n]];
  }

  /** The schedule on which nobody but the reader moves. */
  lemma {:induction false} FetchesRest(s: State, c: Item, n: nat) returns (steps: seq<Step>)
    requires 0 < s.size <= |s.cells| && s.cells[s.head % s.size] == c && n <= s.elem == |c|
    ensures Within(Having(s, c[..n]), steps, Having(s, c))
    decreases s.elem - n
  {
    if n == s.elem {
      assert c[..n] == c;
      steps := [];
    } else {
      FetchesByte(s, c, n);
      var rest := FetchesRest(s, c, n + 1);
      steps := [FetchByte] + rest;
      assert steps[1..] == rest;
    }
  }

  /** What is to be shown of a fetch in s that has begun and read nothing yet: it can end with `c`. */
  ghost predicate CanEndWith(s: State, d: seq<Item>, c: Item) {
    exists steps, r :: Within(Having(s, []), steps, r) && Enabled(r, Advance) && Next(r, Advance).delivered == d + [c]
  }

  lemma EndsAtOnce(s: State, c: Item)
    requires 0 < s.size <= |s.cells| && s.cells[s.head % s.size] == c && s.elem == |c|
    ensures CanEndWith(s, s.delivered, c)
  {
    assert c[..0] == [];
    var steps := FetchesRest(s, c, 0);
    assert Enabled(Having(s, c), Advance) && Next(Having(s, c), Advance).delivered == s.delivered + [c];
  }

  /** Byte p of a put with bytes left to copy gets into the slot before the fetch has read anything. */
  lemma {:induction false} EndsAfterCopy(s: State, k: nat, p: nat) returns (c: Item)
    requires Bounds(s) && s.head < s.tail && k < s.tail && k % s.size == s.head % s.size
    requires s.tickets[k].copied <= p < s.elem
    ensures TicketOk(s, k) && |c| == s.elem && c[p] == s.tickets[k].item[p] && CanEndWith(s, s.delivered, c)
    decreases p - s.tickets[k].copied
  {
    assert TicketOk(s, k);
    var w := s.tickets[k].owner;
    var t := Next(s, CopyByte(w));
    BoundsKept(s, CopyByte(w));
    if s.tickets[k].copied == p {
      c := t.cells[t.head % t.size];
      EndsAtOnce(t, c);
    } else {
      c := EndsAfterCopy(t, k, p);
    }
    AfterCopy(s, w, c);
  }

  lemma CopyWhileFetching(s: State, w: nat)
    requires Enabled(s, CopyByte(w))
    ensures Enabled(Having(s, []), CopyByte(w))
    ensures Next(Having(s, []), CopyByte(w)) == Having(Next(s, CopyByte(w)), [])
  {
  }

  lemma AfterCopy(s: State, w: nat, c: Item)
    requires Enabled(s, CopyByte(w)) && CanEndWith(Next(s, CopyByte(w)), s.delivered, c)
    ensures CanEndWith(s, s.delivered, c)
  {
    CopyWhileFetching(s, w);
    hide Enabled, Next, Having;
    var steps, r :| Within(Having(Next(s, CopyByte(w)), []), steps, r) && Enabled(r, Advance) &&
                    Next(r, Advance).delivered == s.delivered + [c];
    var more := [CopyByte(w)] + steps;
    assert more[1..] == steps;
    assert Within(Having(s, []), more, r);
  }

  /** In a disputed slot a fetch can go wrong: at once, or after the put that disagrees has copied what differs. */
  lemma DisputedFetch(s: State) returns (steps: seq<Step>, t: State)
    requires Bounds(s) && Enabled(s, Decide) && StartsFetch(s, Decide) && !Undisputed(s)
    ensures FetchRun(s, steps, t) && !Delivers(s, t)
  {
    var item := s.tickets[s.head].item;
    assert TicketOk(s, s.head);
    var c := s.cells[s.head % s.size];
    if c == item {
      var k :| 0 <= k < s.tail && !Agrees(s, k);
      assert TicketOk(s, k);
      var n := s.tickets[k].copied;
      var p :| n <= p < s.elem && s.tickets[k].item[p] != item[p];
      c := EndsAfterCopy(s, k, p);
    } else {
      EndsAtOnce(s, c);
    }
    assert Next(s, Decide) == Having(s, []);
    var moves, r :| Within(Having(s, []), moves, r) && Enabled(r, Advance) &&
                    Next(r, Advance).delivered == s.delivered + [c];
    steps, t := moves, Next(r, Advance);
    LastDiffers(s.delivered, c, item);
  }

  /** A behaviour that ends in s. */
  ghost predicate Reaches(s: State) {
    exists states, steps :: Behaviour(states, steps) && states[|steps|] == s
  }

  lemma ReachedBounds(s: State)
    requires Reaches(s)
    ensures Bounds(s)
  {
    var states, steps :| Behaviour(states, steps) && states[|steps|] == s;
    Reached(states, steps, |steps|);
  }

  /**
   Exactly when a fetch that the guard lets start is right, in any reachable state: every way in which it can
   go on delivers its ticket's item if and only if the slot holds that item when the fetch starts, and every
   put that is still copying to this slot has nothing left for it that differs.
   */
  lemma FetchIsRightExactlyWhen(s: State)
    requires Reaches(s) && Enabled(s, Decide) && StartsFetch(s, Decide)
    ensures Bounds(s)
    ensures Undisputed(s) <==> forall moves, t | FetchRun(s, moves, t) :: Delivers(s, t)
  {
    ReachedBounds(s);
    hide Bounds, Behaviour, FetchRun, Delivers;
    if Undisputed(s) {
      forall moves, t | FetchRun(s, moves, t) ensures Delivers(s, t) {
        UndisputedFetchDelivers(s, moves, t);
      }
    } else {
      var moves, t := DisputedFetch(s);
    }
  }

  lemma LastDiffers(d: seq<Item>, x: Item, y: Item)
    requires x != y
    ensures d + [x] != d + [y]
  {
    assert (d + [x])[|d|] != (d + [y])[|d|];
  }

  // ---------------------------------------------------------------------------------------------
  // Delivery over whole runs
  // ---------------------------------------------------------------------------------------------

  /** A fetch starts only in an undisputed slot. */
  predicate Safe(s: State, step: Step)
    requires Bounds(s)
  {
    StartsFetch(s, step) ==> Undisputed(s)
  }

  ghost predicate SafeRun(states: seq<State>, steps: seq<Step>, n: nat)
    requires n <= |steps| < |states|
  {
    forall i | 0 <= i < n :: Bounds(states[i]) && Safe(states[i], steps[i])
  }

  /** The items delivered are those of the first tickets. */
  predicate DeliveredRight(s: State)
    requires Bounds(s)
  {
    forall t | 0 <= t < s.head :: s.delivered[t] == s.tickets[t].item
  }

  lemma DeliveredRightKept(s: State, step: Step)
    requires Bounds(s) && DeliveredRight(s) && Enabled(s, step) && Bounds(Next(s, step))
    requires step.Advance? ==> FetchesRight(s)
    ensures DeliveredRight(Next(s, step))
  {
    if step.Advance? { FetchEnds(s); }
    var u := Next(s, step);
    forall t | 0 <= t < u.head ensures u.delivered[t] == u.tickets[t].item {
      if t < s.head { TicketStays(s, step, t); }
    }
  }

  predicate AllRight(s: State)
    requires Bounds(s)
  {
    DeliveredRight(s) && (s.reader.Fetching? ==> FetchesRight(s))
  }

  lemma AllRightKept(s: State, step: Step)
    requires Bounds(s) && AllRight(s) && Enabled(s, step) && Safe(s, step)
    ensures Bounds(Next(s, step)) && AllRight(Next(s, step))
  {
    BoundsKept(s, step);
    DeliveredRightKept(s, step);
    if s.reader.Fetching? && !step.Advance? {
      FetchesRightKept(s, step);
    } else if StartsFetch(s, step) {
      FetchStarts(s);
    }
  }

  lemma {:induction false} ReachedSafely(states: seq<State>, steps: seq<Step>, i: nat)
    requires Behaviour(states, steps) && i < |states| && SafeRun(states, steps, i)
    ensures Bounds(states[i]) && AllRight(states[i])
  {
    if i == 0 {
      BoundsInit(states[0]);
    } else {
      ReachedSafely(states, steps, i - 1);
      AllRightKept(states[i - 1], steps[i - 1]);
    }
  }

  /** Delivery, if the fetches are safe: the items delivered are the puts in ticket order. */
  lemma SafeRunDelivers(states: seq<State>, steps: seq<Step>, i: nat)
    requires Behaviour(states, steps) && i < |states| && SafeRun(states, steps, i)
    ensures |states[i].delivered| == states[i].head <= |states[i].tickets|
    ensures forall t | 0 <= t < states[i].head :: states[i].delivered[t] == states[i].tickets[t].item
  {
    ReachedSafely(states, steps, i);
  }

  /** What the reader guard does not establish: the put of the ticket to be fetched has ended its memcpy. */
  predicate Calm(s: State, step: Step) {
    StartsFetch(s, step) ==> Stored(s, s.reader.head)
  }

  predicate CalmRun(states: seq<State>, steps: seq<Step>, n: nat)
    requires n <= |steps| < |states|
  {
    forall i | 0 <= i < n :: Calm(states[i], steps[i])
  }

  predicate AllCalm(s: State)
    requires Bounds(s)
  {
    Window(s) && AllRight(s) && (s.reader.Fetching? ==> Stored(s, s.head))
  }

  lemma CalmKept(s: State, step: Step)
    requires Bounds(s) && AllCalm(s) && Enabled(s, step) && Calm(s, step)
    ensures Safe(s, step) && EndsWell(s, step)
    ensures Bounds(Next(s, step)) && AllCalm(Next(s, step))
  {
    hide Window, DeliveredRight;
    if StartsFetch(s, step) {
      StoredContent(s, s.head);
      WindowUndisputed(s);
    }
    if step.Advance? { FetchEnds(s); }
    if s.head < s.tail { TicketsKept(s, step, s.head); }
    WindowKept(s, step);
    AllRightKept(s, step);
  }

  lemma {:induction false} CalmIsSafe(states: seq<State>, steps: seq<Step>, i: nat)
    requires Behaviour(states, steps) && i < |states| && CalmRun(states, steps, i)
    ensures SafeRun(states, steps, i) && Bounds(states[i]) && AllCalm(states[i])
  {
    if i == 0 {
      WindowInit(states[0]);
    } else {
      CalmIsSafe(states, steps, i - 1);
      CalmKept(states[i - 1], steps[i - 1]);
    }
  }

  /** So it is if every fetch starts after the put of its ticket has ended its memcpy. */
  lemma DeliveredInTicketOrder(states: seq<State>, steps: seq<Step>, i: nat)
    requires Behaviour(states, steps) && i < |states| && CalmRun(states, steps, i)
    ensures |states[i].delivered| == states[i].head <= |states[i].tickets|
    ensures forall t | 0 <= t < states[i].head :: states[i].delivered[t] == states[i].tickets[t].item
  {
    CalmIsSafe(states, steps, i);
    SafeRunDelivers(states, steps, i);
  }

  /** In particular if no put at all is between its compare-exchange and the end of its memcpy when a fetch starts. */
  lemma QuietPutsAreCalm(states: seq<State>, steps: seq<Step>, i: nat)
    requires Behaviour(states, steps) && i < |steps|
    requires var s := states[i];
             steps[i].Decide? ==>
               forall w | 0 <= w < |s.writers| && s.writers[w].Copying? :: Stored(s, s.writers[w].ticket)
    ensures Calm(states[i], steps[i])
  {
    Reached(states, steps, i);
    var s := states[i];
    if StartsFetch(s, steps[i]) {
      assert TicketOk(s, s.reader.head);
    }
  }

  // ---------------------------------------------------------------------------------------------
  // What the guard lets through
  // ---------------------------------------------------------------------------------------------

  lemma Then(s: State, step: Step, t: State)
    requires Reaches(s) && Enabled(s, step) && t == Next(s, step)
    ensures Reaches(t)
  {
    hide Enabled, Next;
    var states, steps :| Behaviour(states, steps) && states[|steps|] == s;
    var more, taken := states + [t], steps + [step];
    assert Behaviour(more, taken) && more[|taken|] == t;
  }

  /** An uncontended put up to its compare-exchange. */
  lemma PutUpToTicket(s: State, w: nat, item: Item, t: State)
    requires Reaches(s) && w < |s.writers| && s.writers[w] == Outside && |item| == s.elem
    requires s.head <= s.tail < s.head + s.size
    requires t == s.(writers := s.writers[w := Copying(s.tail)], tail := s.tail + 1,
                     tickets := s.tickets + [Ticket(w, item, 0)])
    ensures Reaches(t)
  {
    hide Reaches;
    var a := s.(writers := s.writers[w := AtTop(item)]);
    Then(s, Enter(w, item), a);
    var b := a.(writers := a.writers[w := HasHead(item, s.head)]);
    Then(a, LoadHead(w), b);
    var c := b.(writers := b.writers[w := HasTail(item, s.head, s.tail)]);
    Then(b, LoadTail(w), c);
    assert c.writers[w := Copying(s.tail)] == t.writers;
    Then(c, TryReserve(w), t);
  }

  /** A get of one byte, when the guard is up. */
  lemma GetsByte(s: State, x: byte, t: State)
    requires Reaches(s) && s.elem == 1 && s.reader == Away && s.head != s.tail && s.guard
    requires 0 < s.size <= |s.cells| && s.cells[s.head % s.size] == [x]
    requires t == s.(head := s.head + 1, delivered := s.delivered + [[x]])
    ensures Reaches(t)
  {
    hide Reaches;
    var a, b := s.(reader := SawHead(s.head)), s.(reader := SawTail(s.head, s.tail));
    Then(s, ReadHead, a);
    Then(a, ReadTail, b);
    var c, d := b.(reader := Fetching(s.head, [])), b.(reader := Fetching(s.head, [x]));
    Then(b, Decide, c);
    assert [] + [x] == [x];
    Then(c, FetchByte, d);
    Then(d, Advance, t);
  }

  /** An empty ring of two one-byte slots, and two writers outside. */
  function TwoWriters(old0: byte, old1: byte): State {
    State(2, 1, 0, 0, false, [[old0], [old1]], [Outside, Outside], Away, [[old0], [old1]], [], [])
  }

  lemma TwoWritersReached(old0: byte, old1: byte)
    ensures Reaches(TwoWriters(old0, old1))
  {
    var b := TwoWriters(old0, old1);
    var init, none: seq<Step> := b.(writers := []), [];
    assert Behaviour([init], none) && [init][|none|] == init;
    hide Reaches;
    var a := b.(writers := [Outside]);
    Then(init, NewWriter, a);
    Then(a, NewWriter, b);
  }

  /** The put of ticket 1 runs to its end; that of ticket 0 has yet to copy anything. */
  lemma SecondPutFinishes(old0: byte, old1: byte, x: byte, y: byte, t: State)
    requires t == TwoWriters(old0, old1).(writers := [Copying(0), Outside], tail := 2, guard := true,
                                          cells := [[old0], [y]],
                                          tickets := [Ticket(0, [x], 0), Ticket(1, [y], 1)])
    ensures Reaches(t)
  {
    var s := TwoWriters(old0, old1);
    TwoWritersReached(old0, old1);
    hide Reaches;
    var a := s.(writers := [Copying(0), Outside], tail := 1, tickets := [Ticket(0, [x], 0)]);
    PutUpToTicket(s, 0, [x], a);
    var b := a.(writers := [Copying(0), Copying(1)], tail := 2, tickets := [Ticket(0, [x], 0), Ticket(1, [y], 0)]);
    PutUpToTicket(a, 1, [y], b);
    var c := t.(writers := b.writers, guard := false);
    assert b.cells[1 := [old1][0 := y]] == c.cells && b.tickets[1 := Ticket(1, [y], 1)] == c.tickets by {
      assert [old1][0 := y] == [y];
    }
    Then(b, CopyByte(1), c);
    Then(c, RaiseGuard(1), t);
  }

  /**
   The guard does not say which put has finished. Writer 0 takes ticket 0 and writer 1 ticket 1; writer 1
   copies its item and raises the guard; the reader fetches ticket 0 and gets what the memory held before.
   */
  lemma GuardOfAnotherPut(old0: byte, old1: byte, x: byte, y: byte) returns (s: State)
    ensures Reaches(s) && s.head == 1 && s.delivered == [[old0]] && s.tickets == [Ticket(0, [x], 0), Ticket(1, [y], 1)]
  {
    hide Reaches;
    var f := TwoWriters(old0, old1).(writers := [Copying(0), Outside], tail := 2, guard := true, cells := [[old0], [y]],
    tickets := [Ticket(0, [x], 0), Ticket(1, [y], 1)]);
    SecondPutFinishes(old0, old1, x, y, f);
    s := f.(head := 1, delivered := [[old0]]);
    GetsByte(f, old0, s);
  }
}
