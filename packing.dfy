/**
 * The first-fit packing that fit.c carries out, stated on values. Files are
 * numbered by their position in the size-sorted list; a bin records the
 * numbers of the files on one disk, in the order they were added, and the
 * space still free on it.
 */
module Packing {

  datatype Bin = Bin(files: seq<nat>, free: int)

  /** The bin fit.c's inner loop stops at: the first with room for the file, or |bins| when none has. */
  function FirstFit(bins: seq<Bin>, size: nat): nat
  {
    FirstFitFrom(bins, size, 0)
  }

  /** The same search from bin j on. */
  function FirstFitFrom(bins: seq<Bin>, size: nat, j: nat): nat
    requires j <= |bins|
    decreases |bins| - j
  {
    if j == |bins| then j
    else if bins[j].free - size >= 0 then j
    else FirstFitFrom(bins, size, j + 1)
  }

  lemma {:induction false} FirstFitFromIsLowest(bins: seq<Bin>, size: nat, j: nat)
    requires j <= |bins|
    ensures var k := FirstFitFrom(bins, size, j);
      j <= k <= |bins| && (k < |bins| ==> bins[k].free - size >= 0) &&
      forall i :: j <= i < k ==> bins[i].free - size < 0
    decreases |bins| - j
  {
    if j < |bins| && bins[j].free - size < 0 {
      FirstFitFromIsLowest(bins, size, j + 1);
    }
  }

  /**
   * The search finds the lowest bin with room: every bin before it lacks
   * room, and it has room unless it is past the last bin.
   */
  lemma FirstFitIsLowest(bins: seq<Bin>, size: nat)
    ensures var k := FirstFit(bins, size);
      k <= |bins| && (k < |bins| ==> bins[k].free - size >= 0) &&
      forall i :: 0 <= i < k ==> bins[i].free - size < 0
  {
    FirstFitFromIsLowest(bins, size, 0);
  }

  /** File f added at the end of the first bin with room for it (which must exist). */
  function AddToFirst(bins: seq<Bin>, f: nat, size: nat): seq<Bin>
    requires FirstFit(bins, size) < |bins|
  {
    var k := FirstFit(bins, size);
    bins[k := Bin(bins[k].files + [f], bins[k].free - size)]
  }

  /**
   * One step of fit.c's outer loop: file f goes into the first bin with room
   * for it; when none has room a new bin of the given capacity is opened for
   * it at the end.
   */
  function Place(bins: seq<Bin>, f: nat, size: nat, capacity: int): seq<Bin>
  {
    if FirstFit(bins, size) < |bins| then AddToFirst(bins, f, size)
    else bins + [Bin([f], capacity - size)]
  }

  /**
   * The bins after the files from i on have been placed, in order, starting
   * from the given bins: the remaining rounds of fit.c's outer loop.
   */
  function PackFrom(bins: seq<Bin>, sizes: seq<nat>, i: nat, capacity: int): seq<Bin>
    requires i <= |sizes|
    decreases |sizes| - i
  {
    if i == |sizes| then bins else PackFrom(Place(bins, i, sizes[i], capacity), sizes, i + 1, capacity)
  }

  lemma PackFromStep(bins: seq<Bin>, sizes: seq<nat>, i: nat, capacity: int)
    requires i < |sizes|
    ensures PackFrom(bins, sizes, i, capacity) == PackFrom(Place(bins, i, sizes[i], capacity), sizes, i + 1, capacity)
  {
  }

  /** The bins fit.c produces for the size-sorted list. */
  function Pack(sizes: seq<nat>, capacity: int): seq<Bin>
  {
    PackFrom([], sizes, 0, capacity)
  }

  /** The total size of the listed files (a number past the list counts as nothing). */
  function Load(ids: seq<nat>, sizes: seq<nat>): nat
  {
    if ids == [] then 0
    else
      var f := ids[|ids| - 1];
      Load(ids[..|ids| - 1], sizes) + (if f < |sizes| then sizes[f] else 0)
  }

  /** How often file x is listed. */
  function Count(ids: seq<nat>, x: nat): nat
  {
    if ids == [] then 0 else Count(ids[..|ids| - 1], x) + (if ids[|ids| - 1] == x then 1 else 0)
  }

  /** How often file x is listed over all the bins. */
  function Occurrences(bins: seq<Bin>, x: nat): nat
  {
    if bins == [] then 0 else Occurrences(bins[..|bins| - 1], x) + Count(bins[|bins| - 1].files, x)
  }

  /** A bin is never over-full, and what is free plus what it holds is the capacity. */
  predicate Balanced(b: Bin, sizes: seq<nat>, capacity: int)
  {
    0 <= b.free && b.free + Load(b.files, sizes) == capacity
  }

  predicate AllFit(sizes: seq<nat>, capacity: int)
  {
    forall i :: 0 <= i < |sizes| ==> sizes[i] <= capacity
  }

  /**
   * Placing a file either adds it at the end of the lowest bin with room,
   * leaving every other bin as it was, or, when no bin has room, opens a new
   * bin holding only it.
   */
  lemma PlaceIsFirstFit(bins: seq<Bin>, f: nat, size: nat, capacity: int)
    ensures var r := Place(bins, f, size, capacity);
      (exists k :: 0 <= k < |bins| && bins[k].free - size >= 0) ==>
        |r| == |bins| &&
        exists k :: 0 <= k < |bins| && bins[k].free - size >= 0 &&
          (forall j :: 0 <= j < k ==> bins[j].free - size < 0) &&
          r[k] == Bin(bins[k].files + [f], bins[k].free - size) &&
          (forall j :: 0 <= j < |bins| && j != k ==> r[j] == bins[j])
    ensures var r := Place(bins, f, size, capacity);
      (forall k :: 0 <= k < |bins| ==> bins[k].free - size < 0) ==> r == bins + [Bin([f], capacity - size)]
  {
    var k := FirstFit(bins, size);
    FirstFitIsLowest(bins, size);
    if exists k' :: 0 <= k' < |bins| && bins[k'].free - size >= 0 {
      var k' :| 0 <= k' < |bins| && bins[k'].free - size >= 0;
      assert k <= k';
    }
  }

  lemma LoadAppend(ids: seq<nat>, f: nat, sizes: seq<nat>)
    requires f < |sizes|
    ensures Load(ids + [f], sizes) == Load(ids, sizes) + sizes[f]
  {
    assert (ids + [f])[..|ids|] == ids;
  }

  lemma CountAppend(ids: seq<nat>, f: nat, x: nat)
    ensures Count(ids + [f], x) == Count(ids, x) + (if f == x then 1 else 0)
  {
    assert (ids + [f])[..|ids|] == ids;
  }

  /** Adding f at the end of bin k adds one listing of f, and nothing else, to the bins. */
  lemma OccurrencesAddTo(bins: seq<Bin>, k: nat, f: nat, free: int, x: nat)
    requires k < |bins|
    ensures Occurrences(bins[k := Bin(bins[k].files + [f], free)], x)
         == Occurrences(bins, x) + (if f == x then 1 else 0)
  {
    var last := |bins| - 1;
    var updated := bins[k := Bin(bins[k].files + [f], free)];
    if k < last {
      var front := bins[..last];
      assert updated[..last] == front[k := Bin(front[k].files + [f], free)];
      assert updated[last] == bins[last];
      OccurrencesAddTo(front, k, f, free, x);
    } else {
      assert updated[..last] == bins[..last];
      CountAppend(bins[k].files, f, x);
    }
  }

  lemma OccurrencesOpen(bins: seq<Bin>, b: Bin, x: nat)
    ensures Occurrences(bins + [b], x) == Occurrences(bins, x) + Count(b.files, x)
  {
    assert (bins + [b])[..|bins|] == bins;
  }

  /** Placing file f adds one listing of f, and nothing else, to the bins. */
  lemma OccurrencesPlace(bins: seq<Bin>, f: nat, size: nat, capacity: int, x: nat)
    ensures Occurrences(Place(bins, f, size, capacity), x) == Occurrences(bins, x) + (if f == x then 1 else 0)
  {
    var k := FirstFit(bins, size);
    if k < |bins| {
      assert Place(bins, f, size, capacity) == bins[k := Bin(bins[k].files + [f], bins[k].free - size)];
      OccurrencesAddTo(bins, k, f, bins[k].free - size, x);
    } else {
      assert Place(bins, f, size, capacity) == bins + [Bin([f], capacity - size)];
      OccurrencesOpen(bins, Bin([f], capacity - size), x);
      assert [f] == [] + [f];
      CountAppend([], f, x);
    }
  }

  lemma OccurrencesNext(prev: seq<Bin>, next: seq<Bin>, m: nat, size: nat, capacity: int, x: nat)
    requires next == Place(prev, m, size, capacity)
    requires Occurrences(prev, x) == if x < m then 1 else 0
    ensures Occurrences(next, x) == if x < m + 1 then 1 else 0
  {
    OccurrencesPlace(prev, m, size, capacity, x);
  }

  lemma {:induction false} PackFromPlacesEachOnce(bins: seq<Bin>, sizes: seq<nat>, i: nat, capacity: int, x: nat)
    requires i <= |sizes|
    requires Occurrences(bins, x) == if x < i then 1 else 0
    ensures Occurrences(PackFrom(bins, sizes, i, capacity), x) == if x < |sizes| then 1 else 0
    decreases |sizes| - i
  {
    if i < |sizes| {
      var next := Place(bins, i, sizes[i], capacity);
      PackFromStep(bins, sizes, i, capacity);
      OccurrencesNext(bins, next, i, sizes[i], capacity, x);
      PackFromPlacesEachOnce(next, sizes, i + 1, capacity, x);
    }
  }

  /** Every file of the list is on exactly one disk, and nothing else is on any. */
  lemma PackPlacesEachOnce(sizes: seq<nat>, capacity: int, x: nat)
    ensures Occurrences(Pack(sizes, capacity), x) == if x < |sizes| then 1 else 0
  {
    PackFromPlacesEachOnce([], sizes, 0, capacity, x);
  }

  /** Every bin is balanced and holds at least one file. */
  predicate AllBalanced(bins: seq<Bin>, sizes: seq<nat>, capacity: int)
  {
    forall k :: 0 <= k < |bins| ==> Balanced(bins[k], sizes, capacity) && bins[k].files != []
  }

  lemma {:induction false} PackFromBalanced(bins: seq<Bin>, sizes: seq<nat>, i: nat, capacity: int)
    requires i <= |sizes| && AllFit(sizes, capacity) && AllBalanced(bins, sizes, capacity)
    ensures AllBalanced(PackFrom(bins, sizes, i, capacity), sizes, capacity)
    decreases |sizes| - i
  {
    if i < |sizes| {
      var next := Place(bins, i, sizes[i], capacity);
      PackFromStep(bins, sizes, i, capacity);
      PlaceKeepsBalance(bins, i, sizes, capacity);
      PackFromBalanced(next, sizes, i + 1, capacity);
    }
  }

  /**
   * When every file fits on an empty disk, no disk is ever over-full, each
   * disk's free space plus the sizes of its files is the capacity, and no
   * disk is left empty.
   */
  lemma PackBalanced(sizes: seq<nat>, capacity: int)
    requires AllFit(sizes, capacity)
    ensures AllBalanced(Pack(sizes, capacity), sizes, capacity)
  {
    PackFromBalanced([], sizes, 0, capacity);
  }

  lemma PlaceKeepsBalance(bins: seq<Bin>, f: nat, sizes: seq<nat>, capacity: int)
    requires f < |sizes| && sizes[f] <= capacity && AllBalanced(bins, sizes, capacity)
    ensures AllBalanced(Place(bins, f, sizes[f], capacity), sizes, capacity)
  {
    if FirstFit(bins, sizes[f]) < |bins| {
      AddToFirstKeepsBalance(bins, f, sizes, capacity);
    } else {
      LoadAppend([], f, sizes);
      assert [f] == [] + [f];
      var r := bins + [Bin([f], capacity - sizes[f])];
      assert forall k :: 0 <= k < |bins| ==> r[k] == bins[k];
    }
  }

  lemma AddToFirstKeepsBalance(bins: seq<Bin>, f: nat, sizes: seq<nat>, capacity: int)
    requires f < |sizes| && FirstFit(bins, sizes[f]) < |bins| && AllBalanced(bins, sizes, capacity)
    ensures AllBalanced(AddToFirst(bins, f, sizes[f]), sizes, capacity)
  {
    var k := FirstFit(bins, sizes[f]);
    FirstFitIsLowest(bins, sizes[f]);
    LoadAppend(bins[k].files, f, sizes);
  }

  /** Every file listed on a bin is one of the first n files. */
  predicate IndicesBelow(bins: seq<Bin>, n: nat)
  {
    forall k, j :: 0 <= k < |bins| && 0 <= j < |bins[k].files| ==> bins[k].files[j] < n
  }

  lemma PlaceIndicesBelow(bins: seq<Bin>, f: nat, size: nat, capacity: int, n: nat)
    requires IndicesBelow(bins, n) && f < n
    ensures IndicesBelow(Place(bins, f, size, capacity), n)
  {
    var r := Place(bins, f, size, capacity);
    if FirstFit(bins, size) < |bins| {
      var k := FirstFit(bins, size);
      assert r == bins[k := Bin(bins[k].files + [f], bins[k].free - size)];
      forall i, j | 0 <= i < |r| && 0 <= j < |r[i].files|
        ensures r[i].files[j] < n
      {
        if i == k && j == |bins[k].files| {
          assert r[i].files[j] == f;
        } else {
          assert r[i].files[j] == bins[i].files[j];
        }
      }
    } else {
      assert r == bins + [Bin([f], capacity - size)];
    }
  }

  lemma {:induction false} PackFromIndicesBelow(bins: seq<Bin>, sizes: seq<nat>, i: nat, capacity: int)
    requires i <= |sizes| && IndicesBelow(bins, i)
    ensures IndicesBelow(PackFrom(bins, sizes, i, capacity), |sizes|)
    decreases |sizes| - i
  {
    if i < |sizes| {
      var next := Place(bins, i, sizes[i], capacity);
      PackFromStep(bins, sizes, i, capacity);
      PlaceIndicesBelow(bins, i, sizes[i], capacity, i + 1);
      PackFromIndicesBelow(next, sizes, i + 1, capacity);
    } else {
      assert PackFrom(bins, sizes, i, capacity) == bins;
    }
  }

  /** The disks list only files of the list: every index on a disk is a position in the sorted list. */
  lemma PackIndicesBelow(sizes: seq<nat>, capacity: int)
    ensures IndicesBelow(Pack(sizes, capacity), |sizes|)
  {
    PackFromIndicesBelow([], sizes, 0, capacity);
  }

  lemma {:induction false} PackFromGrowsByAtMostOne(bins: seq<Bin>, sizes: seq<nat>, i: nat, capacity: int)
    requires i <= |sizes|
    ensures |bins| <= |PackFrom(bins, sizes, i, capacity)| <= |bins| + |sizes| - i
    decreases |sizes| - i
  {
    if i < |sizes| {
      var next := Place(bins, i, sizes[i], capacity);
      PackFromStep(bins, sizes, i, capacity);
      PackFromGrowsByAtMostOne(next, sizes, i + 1, capacity);
    }
  }

  /** fit.c never uses more disks than there are files, and uses one as soon as there is a file. */
  lemma PackUsesAtMostOneDiskPerFile(sizes: seq<nat>, capacity: int)
    ensures |Pack(sizes, capacity)| <= |sizes|
    ensures |sizes| > 0 ==> |Pack(sizes, capacity)| >= 1
  {
    PackFromGrowsByAtMostOne([], sizes, 0, capacity);
    if |sizes| > 0 {
      PackFromGrowsByAtMostOne(Place([], 0, sizes[0], capacity), sizes, 1, capacity);
    }
  }

  /**
   * An example run with a capacity of 1000: 600 opens disk 1, 500 opens
   * disk 2, 400 fills disk 1 exactly, and 300 goes to disk 2.
   */
  lemma PackExample()
    ensures Pack([600, 500, 400, 300], 1000) == [Bin([0, 2], 0), Bin([1, 3], 200)]
  {
    var sizes := [600, 500, 400, 300];
    var b1 := [Bin([0], 400)];
    assert Place([], 0, 600, 1000) == b1;
    var b2 := [Bin([0], 400), Bin([1], 500)];
    assert Place(b1, 1, 500, 1000) == b2;
    assert FirstFit(b2, 400) == 0;
    assert [0] + [2] == [0, 2];
    var b3 := [Bin([0, 2], 0), Bin([1], 500)];
    assert Place(b2, 2, 400, 1000) == b3;
    assert FirstFit(b3, 300) == 1;
    assert [1] + [3] == [1, 3];
    var b4 := [Bin([0, 2], 0), Bin([1, 3], 200)];
    assert Place(b3, 3, 300, 1000) == b4;
    assert PackFrom(b4, sizes, 4, 1000) == b4;
    assert PackFrom(b3, sizes, 3, 1000) == b4;
    assert PackFrom(b2, sizes, 2, 1000) == b4;
    assert PackFrom(b1, sizes, 1, 1000) == b4;
  }

  /**
   * First fit, not best fit: after 600, 550 and 420, disk 2 has exactly 30
   * bytes free and disk 1 has 400, yet the file of 30 goes to disk 1, the
   * first with room.
   */
  lemma FirstFitNotBestFit()
    ensures Pack([600, 550, 420], 1000) == [Bin([0], 400), Bin([1, 2], 30)]
    ensures Pack([600, 550, 420, 30], 1000) == [Bin([0, 3], 370), Bin([1, 2], 30)]
  {
    var sizes := [600, 550, 420, 30];
    var b1 := [Bin([0], 400)];
    assert Place([], 0, 600, 1000) == b1;
    var b2 := [Bin([0], 400), Bin([1], 450)];
    assert Place(b1, 1, 550, 1000) == b2;
    assert FirstFit(b2, 420) == 1;
    assert [1] + [2] == [1, 2];
    var b3 := [Bin([0], 400), Bin([1, 2], 30)];
    assert Place(b2, 2, 420, 1000) == b3;
    assert FirstFit(b3, 30) == 0;
    assert [0] + [3] == [0, 3];
    var b4 := [Bin([0, 3], 370), Bin([1, 2], 30)];
    assert Place(b3, 3, 30, 1000) == b4;
    assert PackFrom(b4, sizes, 4, 1000) == b4;
    assert PackFrom(b3, sizes, 3, 1000) == b4;
    assert PackFrom(b2, sizes, 2, 1000) == b4;
    assert PackFrom(b1, sizes, 1, 1000) == b4;
    var three := [600, 550, 420];
    assert PackFrom(b3, three, 3, 1000) == b3;
    assert PackFrom(b2, three, 2, 1000) == b3;
    assert PackFrom(b1, three, 1, 1000) == b3;
  }
}
