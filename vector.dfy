/**
 * vector.c: a growable buffer of pointers. `items` is the allocated block of
 * `cap` slots, of which the first `size` are in use.
 */
module Vectors {
  import opened Shuffling

  /** INITIAL_VECTOR_CAPACITY from vector.h. */
  const InitialVectorCapacity: nat := 128

  /** The capacity a full vector grows to: cap + cap / 2, the shift rounding down. */
  function Grow(cap: nat): nat
  {
    cap + cap / 2
  }

  /** Growth makes room for the next item exactly when the capacity is at least 2. */
  lemma GrowthMakesRoom(cap: nat)
    ensures Grow(cap) > cap <==> cap >= 2
  {
  }

  class Vector<T(0)> {
    var items: array<T>
    var size: nat
    var cap: nat

    ghost predicate Valid()
      reads this
    {
      items.Length == cap && size <= cap && InitialVectorCapacity <= cap
    }

    /** The items in use, in order. */
    ghost function Contents(): seq<T>
      reads this, items
      requires Valid()
    {
      items[..size]
    }

    /** vector_new: an empty vector with the initial capacity (xcalloc zero-fills the slots). */
    constructor ()
      ensures Valid() && fresh(items)
      ensures size == 0 && cap == InitialVectorCapacity && Contents() == []
    {
      items := new T[InitialVectorCapacity];
      cap := InitialVectorCapacity;
      size := 0;
    }

    /** vector_add: grow when full, then store at index size. */
    method Add(data: T)
      requires Valid()
      modifies this, items
      ensures Valid() && (items == old(items) || fresh(items))
      ensures Contents() == old(Contents()) + [data]
      ensures cap == if old(size) == old(cap) then Grow(old(cap)) else old(cap)
    {
      if size == cap {
        var newcap := cap + cap / 2;
        var grown := new T[newcap];
        var k := 0;
        while k < cap  // what xrealloc copies
          invariant 0 <= k <= cap < newcap
          invariant grown[..k] == items[..k]
          modifies grown
        {
          grown[k] := items[k];
          k := k + 1;
        }
        items, cap := grown, newcap;
      }
      items[size] := data;
      size := size + 1;
    }

    /** vector_foreach: the results of calling f on each item in use, in index order. */
    method ForEach<U>(f: T -> U) returns (calls: seq<U>)
      requires Valid()
      ensures |calls| == size
      ensures forall i :: 0 <= i < size ==> calls[i] == f(items[i])
    {
      calls := [];
      var i := 0;
      while i < size
        invariant 0 <= i <= size
        invariant |calls| == i
        invariant forall k :: 0 <= k < i ==> calls[k] == f(items[k])
      {
        calls := calls + [f(items[i])];
        i := i + 1;
      }
    }

    /**
     * vector_shuffle, with random() replaced by the draws. The source starts
     * its loop at size - 1 in size_t, so an empty vector would wrap around
     * and index out of bounds: the vector must hold an item.
     */
    method Shuffle(draws: seq<nat>)
      requires Valid() && size >= 1 && |draws| == size
      modifies items
      ensures Valid()
      ensures Contents() == Shuffled(old(Contents()), draws)
      ensures multiset(Contents()) == multiset(old(Contents()))
      ensures items[size..] == old(items[size..])
    {
      var i := size - 1;
      while i > 0
        invariant 0 <= i < size
        invariant ShuffleDown(items[..size], draws, i) == Shuffled(old(items[..size]), draws)
        invariant items[size..] == old(items[size..])
      {
        var j := draws[i] % (i + 1);
        ghost var before := items[..size];
        SwapItems(i, j);
        ShuffleDownStep(before, draws, i);
        i := i - 1;
      }
      ShuffledIsPermutation(old(items[..size]), draws);
    }

    /** The exchange through tmp in the loop of vector_shuffle. */
    method SwapItems(i: nat, j: nat)
      requires Valid() && i < size && j < size
      modifies items
      ensures items[..size] == Swap(old(items[..size]), i, j)
      ensures items[size..] == old(items[size..])
    {
      var tmp := items[i];
      items[i] := items[j];
      items[j] := tmp;
    }
  }
}
