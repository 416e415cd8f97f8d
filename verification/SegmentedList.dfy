/** Where the debugger's pretty printer finds an element of a segmented list: the preallocated
    segment, or a box on a shelf of doubling size. */
module SegmentedList {
  import opened Wrappers
  import opened Bits

  /** `int.bit_length()`. */
  function BitLength(n: nat): nat {
    if n == 0 then 0 else 1 + BitLength(n / 2)
  }

  function Log2(n: nat): int {
    BitLength(n) - 1
  }

  datatype Place = Prealloc(index: nat) | Shelf(shelf: int, box: int)

  /** `get_child_at_index`, up to reading the element: `None` outside the list. */
  function Locate(prealloc: nat, length: nat, index: int): Option<Place> {
    if !(0 <= index < length) then None
    else if index < prealloc then Some(Prealloc(index))
    else Some(ShelfOf(prealloc, index))
  }

  function ShelfOf(prealloc: nat, index: nat): Place
    requires index >= prealloc
  {
    if prealloc == 0 then
      LogAtLeast(index + 1, 0);
      var shelf := Log2(index + 1);
      Shelf(shelf, index + 1 - Pow2(shelf))
    else
      var exp := Log2(prealloc);
      LogAtLeast(prealloc, 0);
      DoubleLog(prealloc, index + prealloc);
      var shelf := Log2(index + prealloc) - exp - 1;
      Shelf(shelf, index + prealloc - Pow2(exp + 1 + shelf))
  }

  lemma {:induction false} LogBounds(n: nat)
    requires n > 0
    ensures Log2(n) >= 0 && Pow2(Log2(n)) <= n < Pow2(Log2(n) + 1)
  {
    if n > 1 {
      LogBounds(n / 2);
    }
  }

  lemma LogAtLeast(n: nat, k: nat)
    requires n >= Pow2(k)
    ensures Log2(n) >= k
  {
    LogBounds(n);
    if Log2(n) < k {
      Pow2Monotone(Log2(n) + 1, k);
    }
  }

  lemma LogIs(n: nat, k: nat)
    requires Pow2(k) <= n < Pow2(k + 1)
    ensures Log2(n) == k
  {
    LogAtLeast(n, k);
    LogBounds(n);
    if Log2(n) > k {
      Pow2Monotone(k + 1, Log2(n));
    }
  }

  lemma DoubleLog(p: nat, n: nat)
    requires p > 0 && n >= 2 * p
    ensures Log2(n) >= Log2(p) + 1
  {
    LogBounds(p);
    LogAtLeast(n, Log2(p) + 1);
  }

  ghost predicate PowerOfTwo(p: nat) {
    p > 0 && p == Pow2(Log2(p))
  }

  /** The exponent of shelf 0's size. */
  function Base(prealloc: nat): nat {
    if prealloc == 0 then 0 else LogBounds(prealloc); Log2(prealloc) + 1
  }

  function ShelfSize(prealloc: nat, shelf: nat): nat {
    Pow2(Base(prealloc) + shelf)
  }

  /** The index of a box: the boxes of earlier shelves and the preallocated ones come before it. */
  function IndexOf(prealloc: nat, shelf: nat, box: nat): int {
    ShelfSize(prealloc, shelf) - (if prealloc == 0 then 1 else prealloc) + box
  }

  /** Every index of the list has a place of its own: its slot in the preallocated segment, or a box
      within its shelf from which it can be computed back. Other indices have none. */
  lemma LocateThenIndex(prealloc: nat, length: nat, index: int)
    ensures match Locate(prealloc, length, index)
      case None => !(0 <= index < length)
      case Some(Prealloc(k)) => k == index < prealloc && index < length
      case Some(Shelf(shelf, box)) =>
        && prealloc <= index < length && shelf >= 0 && 0 <= box < ShelfSize(prealloc, shelf)
        && IndexOf(prealloc, shelf, box) == index
  {
    hide ShelfOf, ShelfSize, IndexOf;
    if prealloc <= index < length {
      ShelfThenIndex(prealloc, index);
    }
  }

  lemma ShelfThenIndex(prealloc: nat, index: nat)
    requires index >= prealloc
    ensures var place := ShelfOf(prealloc, index);
      && place.Shelf? && place.shelf >= 0 && 0 <= place.box < ShelfSize(prealloc, place.shelf)
      && IndexOf(prealloc, place.shelf, place.box) == index
  {
    if prealloc == 0 {
      LogBounds(index + 1);
    } else {
      LogBounds(prealloc);
      LogBounds(index + prealloc);
      DoubleLog(prealloc, index + prealloc);
    }
  }

  /** Every box within its shelf is some index's, exactly when the preallocated count is 0 or a
      power of two. */
  lemma IndexThenLocate(prealloc: nat)
    ensures (forall shelf: nat, box: nat :: box < ShelfSize(prealloc, shelf) ==>
               var index := IndexOf(prealloc, shelf, box);
               index >= prealloc && ShelfOf(prealloc, index) == Shelf(shelf, box))
       <==> prealloc == 0 || PowerOfTwo(prealloc)
  {
    hide Log2, Pow2;
    if prealloc == 0 || PowerOfTwo(prealloc) {
      forall shelf: nat, box: nat | box < ShelfSize(prealloc, shelf)
        ensures var index := IndexOf(prealloc, shelf, box);
          index >= prealloc && ShelfOf(prealloc, index) == Shelf(shelf, box)
      {
        BoxFound(prealloc, shelf, box);
      }
    } else {
      FirstBoxMissed(prealloc);
    }
  }

  lemma BoxFound(prealloc: nat, shelf: nat, box: nat)
    requires prealloc == 0 || PowerOfTwo(prealloc)
    requires box < ShelfSize(prealloc, shelf)
    ensures var index := IndexOf(prealloc, shelf, box);
      index >= prealloc && ShelfOf(prealloc, index) == Shelf(shelf, box)
  {
    var k := Base(prealloc) + shelf;
    var index := IndexOf(prealloc, shelf, box);
    assert Pow2(k + 1) == 2 * Pow2(k);
    Pow2Monotone(Base(prealloc), k);
    if prealloc == 0 {
      LogIs(index + 1, k);
    } else {
      assert Pow2(Base(prealloc)) == 2 * prealloc;
      LogIs(index + prealloc, k);
    }
  }

  lemma FirstBoxMissed(prealloc: nat)
    requires prealloc > 0 && !PowerOfTwo(prealloc)
    ensures 0 < ShelfSize(prealloc, 0) && IndexOf(prealloc, 0, 0) < prealloc
  {
    LogBounds(prealloc);
    assert Pow2(Log2(prealloc) + 1) == 2 * Pow2(Log2(prealloc));
  }

  lemma ShelvesDouble(prealloc: nat, s: nat, t: nat)
    requires s < t
    ensures ShelfSize(prealloc, t) >= 2 * ShelfSize(prealloc, s)
  {
    Pow2Monotone(Base(prealloc) + s + 1, Base(prealloc) + t);
  }

  /** Later indices are further along the shelves. */
  lemma LocateKeepsOrder(prealloc: nat, i: nat, j: nat)
    requires prealloc <= i < j
    ensures var a, b := ShelfOf(prealloc, i), ShelfOf(prealloc, j);
      a.shelf < b.shelf || (a.shelf == b.shelf && a.box < b.box)
  {
    ShelfThenIndex(prealloc, i);
    ShelfThenIndex(prealloc, j);
    var a, b := ShelfOf(prealloc, i), ShelfOf(prealloc, j);
    if b.shelf < a.shelf {
      ShelvesDouble(prealloc, b.shelf, a.shelf);
    }
  }
}
