/** Flat memory seen as slots of elem bytes each. */
module Strided {
  import opened Bytes

  type Item = seq<byte>

  /** Where a slot starts in memory, and the length of the memory for `slot` slots. */
  function Place(slot: nat, elem: nat): nat {
    slot * elem
  }

  lemma PlacesApart(a: nat, b: nat, elem: nat)
    requires a < b
    ensures Place(a, elem) + elem <= Place(b, elem)
  {
    MulLe(a + 1, b, elem);
  }

  lemma PlacesUpTo(a: nat, b: nat, elem: nat)
    requires a <= b
    ensures Place(a, elem) <= Place(b, elem)
  {
    MulLe(a, b, elem);
  }

  /** The elem bytes of a slot. */
  function Cell(mem: seq<byte>, count: nat, elem: nat, slot: nat): (c: Item)
    requires slot < count && |mem| == Place(count, elem)
    ensures |c| == elem && Place(slot, elem) + elem <= |mem|
  {
    PlacesApart(slot, count, elem);
    mem[Place(slot, elem)..Place(slot, elem) + elem]
  }

  /** The memory after an item has been copied to a slot. */
  function Filled(mem: seq<byte>, count: nat, elem: nat, slot: nat, item: Item): (m: seq<byte>)
    requires slot < count && |mem| == Place(count, elem) && |item| == elem
    ensures |m| == |mem|
  {
    PlacesApart(slot, count, elem);
    Store(mem, Place(slot, elem), item)
  }

  /** What a store leaves of a slice beside it, and what it makes of its own. */
  lemma SliceOfStore(mem: seq<byte>, at: nat, piece: seq<byte>, o: nat, n: nat)
    requires at + |piece| <= |mem| && o + n <= |mem|
    ensures o + n <= at || at + |piece| <= o ==> Store(mem, at, piece)[o..o + n] == mem[o..o + n]
    ensures o == at && n == |piece| ==> Store(mem, at, piece)[o..o + n] == piece
  {
    var m := Store(mem, at, piece);
    assert forall k | 0 <= k < |mem| :: m[k] == if at <= k < at + |piece| then piece[k - at] else mem[k];
  }

  lemma CellOfFilled(mem: seq<byte>, count: nat, elem: nat, slot: nat, item: Item, other: nat)
    requires slot < count && other < count && |mem| == Place(count, elem) && |item| == elem
    ensures Cell(Filled(mem, count, elem, slot, item), count, elem, other) ==
            if other == slot then item else Cell(mem, count, elem, other)
  {
    hide Store, Place;
    PlacesApart(slot, count, elem);
    PlacesApart(other, count, elem);
    if other < slot { PlacesApart(other, slot, elem); } else if slot < other { PlacesApart(slot, other, elem); }
    SliceOfStore(mem, Place(slot, elem), item, Place(other, elem), elem);
  }

  /** All slots of the memory. */
  function Cells(mem: seq<byte>, count: nat, elem: nat): (cells: seq<Item>)
    requires |mem| == Place(count, elem)
    ensures |cells| == count && forall k | 0 <= k < count :: cells[k] == Cell(mem, count, elem, k)
  {
    seq(count, k requires 0 <= k < count => Cell(mem, count, elem, k))
  }

  /** A copy to one slot changes that slot and no other. */
  lemma CellsOfFilled(mem: seq<byte>, count: nat, elem: nat, slot: nat, item: Item)
    requires slot < count && |mem| == Place(count, elem) && |item| == elem
    ensures Cells(Filled(mem, count, elem, slot, item), count, elem) == Cells(mem, count, elem)[slot := item]
  {
    var after := Cells(Filled(mem, count, elem, slot, item), count, elem);
    forall k | 0 <= k < count ensures after[k] == Cells(mem, count, elem)[slot := item][k] {
      CellOfFilled(mem, count, elem, slot, item, k);
    }
  }

  /** A longer or shorter memory with the same beginning has the same slots as far as both go. */
  lemma CellsOfPrefix(mem: seq<byte>, m: nat, other: seq<byte>, n: nat, elem: nat, both: nat)
    requires |mem| == Place(m, elem) && |other| == Place(n, elem) && both <= m && both <= n
    requires Place(both, elem) <= |mem| && Place(both, elem) <= |other|
    requires mem[..Place(both, elem)] == other[..Place(both, elem)]
    ensures Cells(mem, m, elem)[..both] == Cells(other, n, elem)[..both]
  {
    hide Place;
    forall k | 0 <= k < both ensures Cell(mem, m, elem, k) == Cell(other, n, elem, k) {
      PlacesApart(k, both, elem);
      PlacesApart(k, m, elem);
      PlacesApart(k, n, elem);
      var at, whole := Place(k, elem), Place(both, elem);
      assert mem[at..at + elem] == mem[..whole][at..at + elem];
      assert other[at..at + elem] == other[..whole][at..at + elem];
    }
  }

  /** The bytes of the first n slots are those items one after the other. */
  lemma {:induction false} CellsAreFlat(mem: seq<byte>, count: nat, elem: nat, n: nat)
    requires |mem| == Place(count, elem) && n <= count
    ensures Place(n, elem) <= |mem| && Flatten(Cells(mem, count, elem)[..n]) == mem[..Place(n, elem)]
  {
    var cells := Cells(mem, count, elem);
    if n == 0 {
      assert cells[..0] == [] && mem[..0] == [];
    } else {
      CellsAreFlat(mem, count, elem, n - 1);
      PlaceNext(n - 1, elem);
      assert cells[..n] == cells[..n - 1] + [cells[n - 1]];
      FlattenSnoc(cells[..n - 1], cells[n - 1]);
      var at := Place(n - 1, elem);
      assert mem[..at + elem] == mem[..at] + mem[at..at + elem];
    }
  }

  lemma PlaceNext(slot: nat, elem: nat)
    ensures Place(slot + 1, elem) == Place(slot, elem) + elem
  {
  }

  lemma PlaceZero(elem: nat)
    ensures Place(0, elem) == 0
  {
  }
}
