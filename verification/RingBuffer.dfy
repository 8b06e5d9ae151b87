/**
 ring_buffer_init, ring_buffer_put and ring_buffer_get when calls do not overlap, with head and tail of
 type size_t wrapping at 2^64.
 */
module RingBuffer {
  import opened Bytes
  import opened Strided

  const WORD: nat := 0x1_0000_0000_0000_0000

  /** A count as a size_t keeps it. */
  function Wrap(t: nat): (w: nat)
    ensures w < WORD
  {
    t % WORD
  }

  /** Subtraction of size_t. */
  function Minus(a: nat, b: nat): (d: nat)
    requires a < WORD && b < WORD
    ensures d < WORD
  {
    (a - b) % WORD
  }

  function Position(counter: nat, size: nat): (slot: nat)
    requires 0 < size
    ensures slot < size
  {
    counter % size
  }

  /** The slot of the t-th item ever put: the counter has wrapped before it is reduced to the size. */
  function Slot(t: nat, size: nat): (slot: nat)
    requires 0 < size
    ensures slot < size
  {
    Position(Wrap(t), size)
  }

  /** The memory holds the queue whose first item was the taken-th put, counted from 0. */
  predicate Holds(mem: seq<byte>, size: nat, elem: nat, taken: nat, queue: seq<Item>) {
    && 0 < size && |mem| == Place(size, elem) && |queue| <= size
    && forall i | 0 <= i < |queue| :: |queue[i]| == elem && Cell(mem, size, elem, Slot(taken + i, size)) == queue[i]
  }

  /** Positions apart in the ring are apart in memory. */
  lemma SlotsApart(size: nat, t: nat, i: nat)
    requires 0 < i < size && (WORD % size == 0 || t + i < WORD)
    ensures Slot(t, size) != Slot(t + i, size)
  {
    assert Slot(t, size) == t % size && Slot(t + i, size) == (t + i) % size by {
      if WORD % size == 0 { WrapThenReduce(t, size); WrapThenReduce(t + i, size); }
    }
    Apart(t, t + i, size);
  }

  lemma WrapThenReduce(t: nat, size: nat)
    requires 0 < size && WORD % size == 0
    ensures t % WORD % size == t % size
  {
    var k, w, r := WORD / size, t / WORD, t % WORD;
    var q := r / size;
    assert WORD == k * size && t == w * WORD + r && r == q * size + r % size;
    assert t == (w * k + q) * size + r % size;
    DivModOf(w * k + q, size, r % size);
  }

  /** A put to the slot after the last item keeps the others, if size divides 2^64 or the counter has not wrapped. */
  lemma PutExtends(mem: seq<byte>, size: nat, elem: nat, taken: nat, queue: seq<Item>, item: Item)
    requires Holds(mem, size, elem, taken, queue) && |queue| < size && |item| == elem
    requires WORD % size == 0 || taken + |queue| < WORD
    ensures Holds(Filled(mem, size, elem, Slot(taken + |queue|, size), item), size, elem, taken, queue + [item])
  {
    var slot := Slot(taken + |queue|, size);
    var longer := queue + [item];
    forall i | 0 <= i < |longer|
      ensures |longer[i]| == elem
      ensures Cell(Filled(mem, size, elem, slot, item), size, elem, Slot(taken + i, size)) == longer[i]
    {
      CellOfFilled(mem, size, elem, slot, item, Slot(taken + i, size));
      if i < |queue| { SlotsApart(size, taken + i, |queue| - i); }
    }
  }

  lemma TakeFirst(mem: seq<byte>, size: nat, elem: nat, taken: nat, queue: seq<Item>)
    requires Holds(mem, size, elem, taken, queue) && queue != []
    ensures Cell(mem, size, elem, Slot(taken, size)) == queue[0] && Holds(mem, size, elem, taken + 1, queue[1..])
  {
    assert Slot(taken + 0, size) == Slot(taken, size);
    forall i | 0 <= i < |queue[1..]| ensures Cell(mem, size, elem, Slot(taken + 1 + i, size)) == queue[1..][i] {
      assert Cell(mem, size, elem, Slot(taken + (i + 1), size)) == queue[i + 1];
    }
  }

  /** A put with room left never disturbs the queue, however many items have passed through the ring. */
  ghost predicate NeverDisturbs(size: nat, elem: nat)
    requires 0 < size
  {
    forall mem, taken: nat, queue, item | Holds(mem, size, elem, taken, queue) && |queue| < size && |item| == elem ::
      Holds(Filled(mem, size, elem, Slot(taken + |queue|, size), item), size, elem, taken, queue + [item])
  }

  lemma WholeSlots(w: nat, size: nat, r: nat)
    requires 0 < size && r == w % size
    ensures r <= w && (w - r) % size == 0
  {
    var q := w / size;
    assert w - r == q * size + 0;
    DivModOf(q, size, 0);
  }

  /** If size does not divide 2^64, the counter comes round to 0 in the slot of an earlier item. */
  lemma WrapCollides(size: nat, r: nat)
    requires 0 < size < WORD && r == WORD % size != 0
    ensures r < size && Slot(WORD - r, size) == 0 == Slot(WORD, size)
  {
    WholeSlots(WORD, size, r);
    assert Wrap(WORD - r) == WORD - r && Wrap(WORD) == 0;
  }

  /** Then the item put there lands on one still queued. */
  lemma WrapOverwrites(size: nat, elem: nat) returns (mem: seq<byte>, taken: nat, queue: seq<Item>, item: Item)
    requires 0 < size < WORD && WORD % size != 0 && 0 < elem
    ensures Holds(mem, size, elem, taken, queue) && |queue| < size && |item| == elem
    ensures !Holds(Filled(mem, size, elem, Slot(taken + |queue|, size), item), size, elem, taken, queue + [item])
  {
    var r := WORD % size;
    WrapCollides(size, r);
    hide Place, Slot;
    mem := seq(Place(size, elem), _ => 0);
    queue := seq(r, _ => seq(elem, _ => 0));
    item := seq(elem, _ => 1);
    taken := WORD - r;
    forall i | 0 <= i < |queue| ensures |queue[i]| == elem && Cell(mem, size, elem, Slot(taken + i, size)) == queue[i] {
    }
    CellOfFilled(mem, size, elem, 0, item, 0);
    var longer := queue + [item];
    assert longer[0][0] == 0 && item[0] == 1;
    assert Slot(taken + 0, size) == 0;
  }

  /** Exactly the sizes that divide 2^64 give a queue over runs of any length. */
  lemma SizesThatWrap(size: nat, elem: nat)
    requires 0 < size < WORD && 0 < elem
    ensures NeverDisturbs(size, elem) <==> WORD % size == 0
  {
    if WORD % size == 0 {
      forall mem, taken: nat, queue, item | Holds(mem, size, elem, taken, queue) && |queue| < size && |item| == elem
        ensures Holds(Filled(mem, size, elem, Slot(taken + |queue|, size), item), size, elem, taken, queue + [item])
      {
        PutExtends(mem, size, elem, taken, queue, item);
      }
    } else {
      var mem, taken, queue, item := WrapOverwrites(size, elem);
    }
  }

  /** The difference of the wrapped counters is the number of items between them. */
  lemma WrappedDifference(t: nat, n: nat)
    requires n < WORD
    ensures Minus(Wrap(t + n), Wrap(t)) == n
    ensures Wrap(t + n) == Wrap(t) <==> n == 0
  {
  }

  lemma WrappedSuccessor(t: nat)
    ensures Wrap(Wrap(t) + 1) == Wrap(t + 1)
  {
  }

  class Ring {
    var mem: array<byte>
    var size: nat
    var elemSize: nat
    var head: nat
    var tail: nat
    var readerGuard: bool
    /** How many items have been got, and which have been put since. */
    ghost var taken: nat
    ghost var queue: seq<Item>

    /** The counters agree with the history. */
    ghost predicate Counts()
      reads this
    {
      && 0 < size < WORD && mem.Length == Place(size, elemSize)
      && |queue| <= size && head == Wrap(taken) && tail == Wrap(taken + |queue|)
      && (queue != [] ==> readerGuard)
    }

    /** And so does the memory. */
    ghost predicate Valid()
      reads this, mem
    {
      Counts() && Holds(mem[..], size, elemSize, taken, queue)
    }

    /** The counter has not wrapped, or the slots go round with it. */
    ghost predicate Wraps(t: nat)
      requires 0 < size
      reads this`size
    {
      WORD % size == 0 || t < WORD
    }

    /** ring_buffer_init. */
    constructor (mem: array<byte>, size: nat, elemSize: nat)
      requires 0 < size < WORD && mem.Length == Place(size, elemSize)
      ensures Valid() && taken == 0 && queue == []
      ensures this.mem == mem && this.size == size && this.elemSize == elemSize
    {
      this.mem, this.size, this.elemSize := mem, size, elemSize;
      head, tail, readerGuard := 0, 0, false;
      taken, queue := 0, [];
    }

    /** memcpy of an item to its slot. */
    method CopyIn(slot: nat, item: Item)
      requires slot < size && mem.Length == Place(size, elemSize) && |item| == elemSize
      modifies mem
      ensures mem[..] == Filled(old(mem[..]), size, elemSize, slot, item)
    {
      PlacesApart(slot, size, elemSize);
      MemCopy(mem, Place(slot, elemSize), item);
    }

    /** memcpy of a slot to `out`. */
    method CopyOut(out: array<byte>, slot: nat)
      requires slot < size && mem.Length == Place(size, elemSize) && elemSize <= out.Length && out != mem
      modifies out
      ensures out[..elemSize] == Cell(mem[..], size, elemSize, slot) && out[elemSize..] == old(out[elemSize..])
    {
      PlacesApart(slot, size, elemSize);
      ghost var before := out[..];
      MemCopy(out, 0, mem[Place(slot, elemSize)..Place(slot, elemSize) + elemSize]);
      assert out[..][..elemSize] == Cell(mem[..], size, elemSize, slot);
      assert out[..][elemSize..] == before[elemSize..];
    }

    /** The body of the put that the compare-exchange of `tail` has admitted. */
    method Occupy(t: nat, item: Item)
      requires Counts() && t == tail && |item| == elemSize && |queue| < size
      modifies this`tail, this`readerGuard, this`queue, mem
      ensures Counts() && readerGuard && queue == old(queue) + [item]
      ensures mem[..] == Filled(old(mem[..]), size, elemSize, Slot(taken + |old(queue)|, size), item)
    {
      hide Place, Filled, Wrap, Position;
      WrappedSuccessor(taken + |queue|);
      tail := Wrap(t + 1);
      CopyIn(Position(t, size), item);
      queue := queue + [item];
      readerGuard := true;
    }

    /** One pass through the loop of ring_buffer_put: a full ring is left as it is, for the loop to try again. */
    method TryPut(item: Item) returns (wrote: bool)
      requires Counts() && |item| == elemSize
      modifies this`tail, this`readerGuard, this`queue, mem
      ensures Counts() && (wrote <==> |old(queue)| < size)
      ensures !wrote ==> unchanged(this) && mem[..] == old(mem[..])
      ensures wrote ==>
                && readerGuard && queue == old(queue) + [item]
                && mem[..] == Filled(old(mem[..]), size, elemSize, Slot(taken + |old(queue)|, size), item)
    {
      hide Place, Filled, Wrap, Minus;
      WrappedDifference(taken, |queue|);
      wrote := false;
      var h, t := head, tail;
      var diff := Minus(t, h);
      if diff < size && tail == t {
        Occupy(t, item);
        wrote := true;
      }
    }

    /** What is waiting when a put finds room: on a full ring, what the other thread's get has left. */
    ghost function Remaining(): (q: seq<Item>)
      requires Counts()
      reads this
    {
      if |queue| < size then queue else queue[1..]
    }

    /**
     ring_buffer_put. On a full ring it repeats its pass; the get of another thread that it waits for, with
     `out` to copy to, comes after `waits` of them.
     */
    method Put(item: Item, out: array<byte>, waits: nat)
      requires Counts() && |item| == elemSize && elemSize <= out.Length && out != mem
      modifies this`head, this`tail, this`readerGuard, this`taken, this`queue, mem, out
      ensures Counts() && readerGuard && queue == old(Remaining()) + [item]
      ensures taken + |queue| == old(taken + |queue|) + 1
      ensures mem[..] == Filled(old(mem[..]), size, elemSize, Slot(old(taken + |queue|), size), item)
      ensures old(Valid()) && Wraps(old(taken + |queue|)) ==> Valid()
      ensures old(Valid() && |queue| == size) ==> out[..elemSize] == old(queue)[0]
      ensures old(|queue| < size) ==> out[..] == old(out[..])
    {
      hide Place, Holds, Filled;
      var wrote, left := false, waits;
      ghost var got := false;
      while !wrote
        invariant Counts() && taken + |queue| == old(taken + |queue|) + (if wrote then 1 else 0)
        invariant taken == old(taken) + (if got then 1 else 0) && (got ==> |old(queue)| == size)
        invariant if wrote then
                    && readerGuard && queue == old(Remaining()) + [item]
                    && mem[..] == Filled(old(mem[..]), size, elemSize, Slot(old(taken + |queue|), size), item)
                  else
                    mem[..] == old(mem[..]) && queue == if got then old(Remaining()) else old(queue)
        invariant if got then out[..elemSize] == Cell(old(mem[..]), size, elemSize, Slot(old(taken), size))
                  else out[..] == old(out[..])
        invariant wrote && !got ==> |old(queue)| < size
        decreases !wrote, |queue|, left
      {
        wrote := TryPut(item);
        if !wrote {
          if left == 0 {
            Get(out);
            got := true;
          } else {
            left := left - 1;
          }
        }
      }
      if old(Valid()) {
        if got { TakeFirst(old(mem[..]), size, elemSize, old(taken), old(queue)); }
        if Wraps(old(taken + |queue|)) {
          PutExtends(old(mem[..]), size, elemSize, taken, old(Remaining()), item);
        }
      }
    }

    /** The body of the get that found an item and the guard up. */
    method Vacate(h: nat, out: array<byte>)
      requires Counts() && h == head && queue != [] && elemSize <= out.Length && out != mem
      modifies this`head, this`taken, this`queue, out
      ensures Counts() && taken == old(taken) + 1 && queue == old(queue)[1..]
      ensures out[..elemSize] == Cell(mem[..], size, elemSize, Slot(old(taken), size))
      ensures out[elemSize..] == old(out[elemSize..]) && mem[..] == old(mem[..])
    {
      hide Place, Cell, Wrap, Position;
      WrappedSuccessor(taken);
      CopyOut(out, Position(h, size));
      head := Wrap(h + 1);
      taken, queue := taken + 1, queue[1..];
    }

    /** ring_buffer_get: the oldest item, or at once nothing. */
    method Get(out: array<byte>)
      requires Counts() && elemSize <= out.Length && out != mem
      modifies this`head, this`readerGuard, this`taken, this`queue, out
      ensures Counts() && mem[..] == old(mem[..])
      ensures old(queue) == [] ==> queue == [] && !readerGuard && out[..] == old(out[..]) && taken == old(taken)
      ensures old(queue) != [] ==> queue == old(queue)[1..] && taken == old(taken) + 1 && readerGuard
      ensures old(queue) != [] ==> out[..elemSize] == Cell(mem[..], size, elemSize, Slot(old(taken), size))
      ensures old(queue) != [] ==> out[elemSize..] == old(out[elemSize..])
      ensures old(Valid()) ==> Valid() && (old(queue) != [] ==> out[..elemSize] == old(queue)[0])
    {
      hide Place, Holds, Cell, Wrap;
      WrappedDifference(taken, |queue|);
      var read := false;
      while !read
        invariant Counts() && mem[..] == old(mem[..])
        invariant if read then
                    && old(queue) != [] && queue == old(queue)[1..] && taken == old(taken) + 1 && readerGuard
                    && out[..elemSize] == Cell(mem[..], size, elemSize, Slot(old(taken), size))
                    && out[elemSize..] == old(out[elemSize..])
                  else
                    && queue == old(queue) && taken == old(taken) && head == old(head)
                    && readerGuard == old(readerGuard) && out[..] == old(out[..])
        decreases !read
      {
        var h, t := head, tail;
        if h == t {
          readerGuard := false;
          break;
        } else if readerGuard {
          Vacate(h, out);
          read := true;
        }
      }
      if old(Valid()) && read {
        TakeFirst(mem[..], size, elemSize, old(taken), old(queue));
      }
    }
  }

  /**
   The run behind SizesThatWrap: items are put and got one by one until the counter is about to come round,
   then some are left waiting, and the put that makes it come round overwrites the first of them.
   */
  method WrapLosesItem(size: nat, elem: nat) returns (ring: Ring)
    requires 0 < size < WORD && WORD % size != 0 && 0 < elem
    ensures fresh(ring) && ring.Counts() && ring.queue != [] && ring.size == size && ring.elemSize == elem
    ensures Cell(ring.mem[..], size, elem, Slot(ring.taken, size)) != ring.queue[0]
  {
    hide Place, Holds, Filled, Cell, Wrap, Slot;
    var mem := new byte[Place(size, elem)];
    var out := new byte[elem];
    var r := WORD % size;
    WrapCollides(size, r);
    ring := new Ring(mem, size, elem);
    var zeros, ones := seq(elem, _ => 0 as byte), seq(elem, _ => 1 as byte);
    for k := 0 to WORD - r
      invariant ring.Valid() && ring.queue == [] && ring.taken == k
      invariant ring.mem == mem && ring.size == size && ring.elemSize == elem
    {
      ring.Put(zeros, out, 0);
      ring.Get(out);
    }
    for k := 0 to r
      invariant ring.Valid() && |ring.queue| == k && ring.taken == WORD - r
      invariant forall i | 0 <= i < k :: ring.queue[i] == zeros
      invariant ring.mem == mem && ring.size == size && ring.elemSize == elem
    {
      ring.Put(zeros, out, 0);
    }
    ghost var before := mem[..];
    ring.Put(ones, out, 0);
    CellOfFilled(before, size, elem, 0, ones, 0);
    assert ones[0] != zeros[0];
  }
}
