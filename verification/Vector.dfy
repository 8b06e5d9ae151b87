/** vector_t: items of itemSize bytes each in one block of memory, shifted and reversed in place. */
module Vector {
  import opened Bytes
  import opened Strided
  import Growth

  const VECTOR_DEFAULT_CAPACITY := 8

  function InsertedAt(s: seq<Item>, i: nat, item: Item): seq<Item>
    requires i <= |s|
  {
    s[..i] + [item] + s[i..]
  }

  function RemovedAt(s: seq<Item>, i: nat): seq<Item>
    requires i < |s|
  {
    s[..i] + s[i + 1..]
  }

  function Reversed(s: seq<Item>): seq<Item> {
    if s == [] then [] else Reversed(s[1..]) + [s[0]]
  }

  lemma {:induction false} ReversedAt(s: seq<Item>, k: nat)
    requires k < |s|
    ensures |Reversed(s)| == |s| && Reversed(s)[k] == s[|s| - 1 - k]
  {
    if |s| == 1 {
      assert Reversed(s) == [] + [s[0]];
    } else {
      ReversedAt(s[1..], if k < |s| - 1 then k else 0);
    }
  }

  lemma ReversedIs(s: seq<Item>, r: seq<Item>)
    requires |r| == |s| && forall k | 0 <= k < |s| :: r[k] == s[|s| - 1 - k]
    ensures r == Reversed(s)
  {
    if s != [] { ReversedAt(s, 0); }
    forall k | 0 <= k < |s| ensures r[k] == Reversed(s)[k] { ReversedAt(s, k); }
  }

  /** Reversing twice changes nothing. */
  lemma ReverseTwice(s: seq<Item>)
    ensures Reversed(Reversed(s)) == s
  {
    if s != [] { ReversedAt(s, 0); }
    forall k | 0 <= k < |s| ensures s[k] == Reversed(s)[|s| - 1 - k] { ReversedAt(s, |s| - 1 - k); }
    ReversedIs(Reversed(s), s);
  }

  lemma RemoveUndoesInsert(s: seq<Item>, i: nat, item: Item)
    requires i <= |s|
    ensures RemovedAt(InsertedAt(s, i, item), i) == s
    ensures i < |s| ==> InsertedAt(RemovedAt(s, i), i, s[i]) == s
  {
  }

  /** Slots i + 1 .. k - 1 moved down by one. */
  function ShiftedDown(cells: seq<Item>, i: nat, k: nat): (r: seq<Item>)
    requires i < k <= |cells|
    ensures |r| == |cells|
  {
    cells[..i] + cells[i + 1..k] + cells[k - 1..]
  }

  /** Slots k .. size - 1 moved up by one. */
  function ShiftedUp(cells: seq<Item>, k: nat, size: nat): (r: seq<Item>)
    requires k <= size < |cells|
    ensures |r| == |cells|
  {
    if k == size then cells else cells[..k + 1] + cells[k..size] + cells[size + 1..]
  }

  /** In `now` the loop of vector_remove_at has reached slot k. */
  predicate DownTo(now: seq<Item>, cells: seq<Item>, i: nat, k: nat) {
    i < k <= |cells| && now == ShiftedDown(cells, i, k)
  }

  lemma ShiftDownStarts(cells: seq<Item>, i: nat)
    requires i < |cells|
    ensures DownTo(cells, cells, i, i + 1)
  {
  }

  lemma ShiftDownStep(now: seq<Item>, next: seq<Item>, cells: seq<Item>, i: nat, k: nat)
    requires k < |now| == |cells| && DownTo(now, cells, i, k) && next == now[k - 1 := now[k]]
    ensures DownTo(next, cells, i, k + 1)
  {
  }

  lemma ShiftDownDone(now: seq<Item>, cells: seq<Item>, i: nat, size: nat)
    requires i < size <= |cells| == |now| && DownTo(now, cells, i, size)
    ensures now[..size - 1] == RemovedAt(cells[..size], i)
  {
  }

  lemma ShiftUpStep(cells: seq<Item>, now: seq<Item>, k: nat, size: nat)
    requires 0 < k <= size < |cells| && now == ShiftedUp(cells, k, size)
    ensures now[k := now[k - 1]] == ShiftedUp(cells, k - 1, size)
  {
  }

  lemma ShiftUpDone(cells: seq<Item>, i: nat, size: nat, item: Item)
    requires i <= size < |cells|
    ensures ShiftedUp(cells, i, size)[i := item][..size + 1] == InsertedAt(cells[..size], i, item)
  {
  }

  /** Which slot's item lies in slot k when the first f and the last f slots below size have been exchanged. */
  function Partner(size: nat, f: nat, k: nat): (p: nat)
    requires k < size
    ensures p < size
  {
    if k < f || size - f <= k then size - 1 - k else k
  }

  predicate Exchanged(cells: seq<Item>, was: seq<Item>, size: nat, f: nat)
    requires size <= |cells| == |was|
  {
    forall k | 0 <= k < size :: cells[k] == was[Partner(size, f, k)]
  }

  lemma ExchangeNone(was: seq<Item>, size: nat)
    requires size <= |was|
    ensures Exchanged(was, was, size, 0)
  {
  }

  /** Slots f and b exchanged, and no other changed but the spare one. */
  predicate Swapped(cells: seq<Item>, now: seq<Item>, f: nat, b: nat, spare: nat) {
    && |cells| == |now| && f < |now| && b < |now|
    && forall k | 0 <= k < |now| && k != spare :: cells[k] == now[if k == f then b else if k == b then f else k]
  }

  lemma SwapDone(cells: seq<Item>, was: seq<Item>, f: nat, b: nat, spare: nat)
    requires f < b < |was| && spare != f && spare != b
    requires cells == was[f := was[b]][b := was[f]] ||
             (spare < |was| && cells == was[spare := was[f]][f := was[b]][b := was[f]])
    ensures Swapped(cells, was, f, b, spare)
  {
  }

  lemma ExchangeNext(cells: seq<Item>, now: seq<Item>, was: seq<Item>, size: nat, f: nat, spare: nat)
    requires size <= |cells| == |now| == |was| && f < size - 1 - f && Exchanged(now, was, size, f)
    requires size <= spare && Swapped(cells, now, f, size - 1 - f, spare)
    ensures Exchanged(cells, was, size, f + 1)
  {
    forall k | 0 <= k < size ensures cells[k] == was[Partner(size, f + 1, k)] {
      var from := if k == f then size - 1 - f else if k == size - 1 - f then f else k;
      assert cells[k] == now[from] == was[Partner(size, f, from)];
    }
  }

  /** The slots from size up are as they were, but for the spare one. */
  predicate RestKept(cells: seq<Item>, was: seq<Item>, size: nat, spare: nat) {
    |cells| == |was| && forall k | size <= k < |was| && k != spare :: cells[k] == was[k]
  }

  lemma RestStays(cells: seq<Item>, now: seq<Item>, was: seq<Item>, size: nat, f: nat, b: nat, spare: nat)
    requires RestKept(now, was, size, spare) && Swapped(cells, now, f, b, spare) && f < size && b < size
    ensures RestKept(cells, was, size, spare)
  {
  }

  lemma ExchangedAll(cells: seq<Item>, was: seq<Item>, size: nat, f: nat)
    requires size <= |cells| == |was| && size - 1 <= 2 * f <= size + 1 && Exchanged(cells, was, size, f)
    ensures cells[..size] == Reversed(was[..size])
  {
    ReversedIs(was[..size], cells[..size]);
  }

  lemma SamePrefix(s: seq<Item>, r: seq<Item>, n: nat)
    requires n <= |s| && n <= |r| && s[..n] == r[..n]
    ensures forall k | 0 <= k < n :: s[k] == r[k]
  {
    assert forall k | 0 <= k < n :: s[k] == s[..n][k] == r[..n][k] == r[k];
  }

  class Vector {
    var items: array<byte>
    var itemSize: nat
    var size: nat
    var cap: nat
    /** How many items reallocations have carried over. */
    ghost var carried: nat

    /** A vector_t on which vector_init has yet to be called. */
    constructor () {
      items := new byte[0];
    }

    ghost predicate Shape()
      reads this`items, this`itemSize, this`cap
    {
      0 < itemSize && 0 < cap && items.Length == Place(cap, itemSize)
    }

    ghost predicate Valid()
      reads this
    {
      Shape() && size <= cap
    }

    ghost function Slots(): (s: seq<Item>)
      requires Shape()
      reads this`items, this`itemSize, this`cap, items
      ensures |s| == cap
    {
      Cells(items[..], cap, itemSize)
    }

    /** The items of the vector, in order. */
    ghost function Contents(): (s: seq<Item>)
      requires Valid()
      reads this, items
      ensures |s| == size
    {
      Slots()[..size]
    }

    /** memcpy of an item to the slot at byte offset `at`. */
    method CopyTo(at: nat, ghost slot: nat, item: Item)
      requires Shape() && slot < cap && at == Place(slot, itemSize) && |item| == itemSize
      modifies items
      ensures Slots() == old(Slots())[slot := item]
    {
      PlacesApart(slot, cap, itemSize);
      CellsOfFilled(items[..], cap, itemSize, slot, item);
      MemCopy(items, at, item);
    }

    /** The item at byte offset `at`. */
    method At(at: nat, ghost slot: nat) returns (item: Item)
      requires Shape() && slot < cap && at == Place(slot, itemSize)
      ensures item == Slots()[slot] && |item| == itemSize
    {
      PlacesApart(slot, cap, itemSize);
      item := items[at..at + itemSize];
    }

    /** memcpy from one slot to another. */
    method MoveSlot(to: nat, ghost t: nat, from: nat, ghost f: nat)
      requires Shape() && t < cap && f < cap && to == Place(t, itemSize) && from == Place(f, itemSize)
      modifies items
      ensures Slots() == old(Slots())[t := old(Slots())[f]]
    {
      var item := At(from, f);
      CopyTo(to, t, item);
    }

    /** vector_init. `granted` is malloc's answer here, as in the methods below. */
    method Init(itemSize: nat, cap: nat, granted: bool) returns (ok: bool)
      requires 0 < itemSize
      modifies this
      ensures ok == granted
      ensures ok ==> Valid() && fresh(items) && Contents() == [] && carried == 0
      ensures ok ==> this.itemSize == itemSize && this.cap == if cap == 0 then VECTOR_DEFAULT_CAPACITY else cap
      ensures !ok ==> unchanged(this)
    {
      var c := if cap == 0 then VECTOR_DEFAULT_CAPACITY else cap;
      ok := granted;
      if ok {
        items := new byte[Place(c, itemSize)];
        this.itemSize, size, this.cap, carried := itemSize, 0, c, 0;
      }
    }

    /** vector_resize: realloc keeps the bytes that both blocks have room for. */
    method Resize(newCap: nat, granted: bool) returns (ok: bool)
      requires Shape() && 0 < newCap
      modifies this`items, this`cap, this`carried
      ensures Shape() && ok == granted
      ensures ok ==> cap == newCap && fresh(items) && carried == old(carried) + size
      ensures ok ==> forall k | 0 <= k < old(cap) && k < newCap :: Slots()[k] == old(Slots())[k]
      ensures ok && old(Valid()) && size <= newCap ==> Valid() && Contents() == old(Contents())
      ensures !ok ==> unchanged(this)
    {
      ok := granted;
      if ok {
        var both := if cap < newCap then cap else newCap;
        PlacesUpTo(both, cap, itemSize);
        PlacesUpTo(both, newCap, itemSize);
        var bytes := Place(both, itemSize);
        var larger := new byte[Place(newCap, itemSize)];
        MemCopy(larger, 0, items[..bytes]);
        assert larger[..][..bytes] == items[..][..bytes];
        CellsOfPrefix(items[..], cap, larger[..], newCap, itemSize, both);
        ghost var was := Slots();
        items, cap, carried := larger, newCap, carried + size;
        SamePrefix(Slots(), was, both);
        if size <= both { assert Slots()[..size] == was[..size]; }
      }
    }

    /** The loop of vector_remove_at. */
    method ShiftDown(i: nat)
      requires Valid() && i < size
      modifies items
      ensures DownTo(Slots(), old(Slots()), i, size)
    {
      hide Place, Cells, DownTo;
      ghost var was := Slots();
      ShiftDownStarts(was, i);
      ghost var k := i + 1;
      PlaceNext(i, itemSize);
      var prev := Place(i, itemSize);
      var cur := prev + itemSize;
      var end := Place(size, itemSize);
      while cur != end
        invariant i < k <= size && cur == Place(k, itemSize) && prev == Place(k - 1, itemSize)
        invariant DownTo(Slots(), was, i, k)
        decreases size - k
      {
        ghost var now := Slots();
        MoveSlot(prev, k - 1, cur, k);
        ShiftDownStep(now, Slots(), was, i, k);
        prev := cur;
        PlaceNext(k, itemSize);
        cur, k := cur + itemSize, k + 1;
      }
      if k < size { PlacesApart(k, size, itemSize); }
    }

    /** vector_remove_at. */
    method RemoveAt(i: nat)
      requires Valid() && i < size
      modifies this`size, items
      ensures Valid() && size == old(size) - 1 && Contents() == RemovedAt(old(Contents()), i)
    {
      ghost var was := Slots();
      ShiftDown(i);
      ShiftDownDone(Slots(), was, i, size);
      size := size - 1;
    }

    /** vector_insert_at. */
    method InsertAt(item: Item, i: nat, granted: bool) returns (ok: bool)
      requires Valid() && |item| == itemSize && i <= size
      modifies this, items
      ensures Valid() && itemSize == old(itemSize)
      ensures ok ==> Contents() == InsertedAt(old(Contents()), i, item)
      ensures ok ==> Growth.Load(size, cap, carried) == Growth.Pushed(old(Growth.Load(size, cap, carried)))
      ensures items == old(items) || (fresh(items) && old(size == cap) && old(items[..]) == old(items)[..])
      ensures ok ==> cap == if old(size == cap) then Growth.Grow(old(cap)) else old(cap)
      ensures ok <==> old(size < cap) || granted
      ensures !ok ==> unchanged(this) && unchanged(items)
    {
      if size == cap {
        Growth.GrowsAlways(cap);
        ok := Resize(Growth.Grow(cap), granted);
        if !ok { return; }
      }
      ShiftUpAndStore(item, i);
      ok := true;
    }

    /** The loop of vector_insert_at, with room for one more item. */
    method ShiftUpAndStore(item: Item, i: nat)
      requires Valid() && size < cap && |item| == itemSize && i <= size
      modifies this`size, items
      ensures Valid() && size == old(size) + 1 && Contents() == InsertedAt(old(Contents()), i, item)
    {
      ShiftUpDone(Slots(), i, size, item);
      ghost var was := Slots();
      hide Place, Slots, InsertedAt;
      var end := Place(size, itemSize);
      var start := Place(i, itemSize);
      var cur := end;
      ghost var k := size;
      assert ShiftedUp(was, size, size) == was;
      hide ShiftedUp;
      while start < cur
        invariant size == old(size) && i <= k <= size && cur == Place(k, itemSize)
        invariant Slots() == ShiftedUp(was, k, size)
        decreases k
      {
        PlaceNext(k - 1, itemSize);
        ShiftUpStep(was, Slots(), k, size);
        var prev := cur - itemSize;
        MoveSlot(cur, k, prev, k - 1);
        cur, k := prev, k - 1;
      }
      if i < k { PlacesApart(i, k, itemSize); }
      CopyTo(start, i, item);
      size := size + 1;
    }

    /** vector_push_back: its position is an unsigned, of 32 bits. */
    method PushBack(item: Item, granted: bool) returns (ok: bool)
      requires Valid() && |item| == itemSize
      modifies this, items
      ensures Valid() && itemSize == old(itemSize)
      ensures ok ==> Contents() == InsertedAt(old(Contents()), old(size) % U32_LIMIT, item)
      ensures ok && old(size) < U32_LIMIT ==> Contents() == old(Contents()) + [item]
      ensures ok ==> Growth.Load(size, cap, carried) == Growth.Pushed(old(Growth.Load(size, cap, carried)))
      ensures items == old(items) || (fresh(items) && old(size == cap) && old(items[..]) == old(items)[..])
      ensures ok ==> cap == if old(size == cap) then Growth.Grow(old(cap)) else old(cap)
      ensures ok <==> old(size < cap) || granted
      ensures !ok ==> unchanged(this) && unchanged(items)
    {
      ok := InsertAt(item, size % U32_LIMIT, granted);
    }

    /** memcpy of an item to the scratch space, which may be a slot of the vector past its items. */
    method Stash(tmp: array<byte>, at: nat, ghost scratch: nat, item: Item)
      requires Shape() && |item| == itemSize && at + itemSize <= tmp.Length
      requires tmp == items ==> scratch < cap && at == Place(scratch, itemSize)
      modifies tmp
      ensures tmp[at..at + itemSize] == item
      ensures tmp == items ==> Slots() == old(Slots())[scratch := item]
      ensures tmp != items ==> Slots() == old(Slots())
      ensures tmp[..at] == old(tmp[..at]) && tmp[at + itemSize..] == old(tmp[at + itemSize..])
    {
      if tmp == items {
        CellsOfFilled(items[..], cap, itemSize, scratch, item);
      }
      MemCopy(tmp, at, item);
      assert tmp[..][at..at + itemSize] == item;
    }

    /** vector_reverse_no_alloc, with scratch space for one item at tmp + at. */
    method ReverseNoAlloc(tmp: array<byte>, at: nat, ghost scratch: nat)
      requires Valid() && at + itemSize <= tmp.Length
      requires tmp == items ==> size <= scratch < cap && at == Place(scratch, itemSize)
      modifies items, tmp
      ensures Valid() && Contents() == Reversed(old(Contents()))
      ensures RestKept(Slots(), old(Slots()), size, if tmp == items then scratch else cap)
    {
      hide Place, Slots, Exchanged, Swapped;
      ghost var was := Slots();
      ghost var spare := if tmp == items then scratch else cap;
      assert RestKept(was, was, size, spare);
      hide RestKept;
      ghost var f := 0;
      ExchangeNone(was, size);
      var front, back := 0, Place(size, itemSize) - itemSize;
      PlaceZero(itemSize);
      while front < back
        invariant 2 * f <= size + 1 && front == Place(f, itemSize) && (f < size || f == size == 0)
        invariant back + itemSize == Place(size - f, itemSize)
        invariant Exchanged(Slots(), was, size, f)
        invariant RestKept(Slots(), was, size, spare)
        decreases size - f
      {
        if size == 0 { assert false; }
        ghost var b := size - 1 - f;
        PlaceNext(b, itemSize);
        if b <= f { PlacesUpTo(b, f, itemSize); }
        ghost var now := Slots();
        SwapSlots(tmp, at, scratch, front, f, back, b);
        ExchangeNext(Slots(), now, was, size, f, spare);
        RestStays(Slots(), now, was, size, f, b, spare);
        PlaceNext(f, itemSize);
        PlaceNext(b - 1, itemSize);
        front, back, f := front + itemSize, back - itemSize, f + 1;
      }
      if f < size - 1 - f { PlaceNext(size - 1 - f, itemSize); PlacesApart(f, size - 1 - f, itemSize); }
      ExchangedAll(Slots(), was, size, f);
    }

    /** The body of the loop: three memcpy calls. */
    method SwapSlots(tmp: array<byte>, at: nat, ghost scratch: nat, front: nat, ghost f: nat, back: nat, ghost b: nat)
      requires Valid() && at + itemSize <= tmp.Length && f < b < size
      requires tmp == items ==> size <= scratch < cap && at == Place(scratch, itemSize)
      requires front == Place(f, itemSize) && back == Place(b, itemSize)
      modifies items, tmp
      ensures Swapped(Slots(), old(Slots()), f, b, if tmp == items then scratch else cap)
    {
      hide Swapped;
      ghost var was := Slots();
      var first := At(front, f);
      Stash(tmp, at, scratch, first);
      var last := At(back, b);
      CopyTo(front, f, last);
      if tmp == items { first := At(at, scratch); } else { first := tmp[at..at + itemSize]; }
      CopyTo(back, b, first);
      SwapDone(Slots(), was, f, b, if tmp == items then scratch else cap);
    }

    /** vector_reverse: a full vector needs a buffer for one item, any other has a slot to spare. */
    method Reverse(granted: bool) returns (ok: bool)
      requires Valid()
      modifies items
      ensures Valid()
      ensures ok ==> Contents() == Reversed(old(Contents()))
      ensures ok <==> old(size < cap) || granted
      ensures !ok ==> items[..] == old(items[..])
    {
      if size == cap {
        ok := granted;
        if ok {
          var tmp := new byte[itemSize];
          ReverseNoAlloc(tmp, 0, 0);
        }
      } else {
        PlacesApart(size, cap, itemSize);
        ReverseNoAlloc(items, Place(size, itemSize), size);
        ok := true;
      }
    }
  }
}
