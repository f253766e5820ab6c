/**
 * fit.c: the files found are sorted by size, largest first, and put one by
 * one on the first disk with room for them, a new disk being made when no
 * disk has room. A disk lists the files on it by their position in the
 * sorted file list, which stands for the shared `struct file` pointers.
 */
module Fit {
  import opened Packing
  import Shuffling

  /** struct file: the size and the path of a file as collected. */
  datatype File = File(size: nat, name: string)

  function Sizes(files: seq<File>): (r: seq<nat>)
    ensures |r| == |files| && forall i :: 0 <= i < |files| ==> r[i] == files[i].size
  {
    seq(|files|, i requires 0 <= i < |files| => files[i].size)
  }

  predicate NonIncreasing(files: seq<File>)
  {
    forall i, j :: 0 <= i < j < |files| ==> files[i].size >= files[j].size
  }

  /** struct disk: the files on the disk, its free space and its number. */
  class Disk {
    var files: seq<nat>
    var free: int
    const id: nat

    constructor (size: int, id: nat)
      ensures files == [] && free == size && this.id == id
    {
      files := [];
      free := size;
      this.id := id;
    }

    /**
     * addfile: a file that would take the free space below zero is refused
     * and the disk is left as it was; otherwise it is listed at the end and
     * its size is taken off the free space.
     */
    method AddFile(f: nat, size: nat) returns (added: bool)
      modifies this
      ensures added <==> old(free) - size >= 0
      ensures files == (if added then old(files) + [f] else old(files))
      ensures free == (if added then old(free) - size else old(free))
    {
      if free - size < 0 {
        return false;
      }
      files := files + [f];
      free := free - size;
      return true;
    }
  }

  /** The static counter of newdisk: the number of the last disk made, 0 before the first. */
  class DiskMaker {
    var lastId: nat

    constructor ()
      ensures lastId == 0
    {
      lastId := 0;
    }

    /** newdisk: an empty disk with the given free space, numbered one past the previous disk. */
    method NewDisk(size: int) returns (d: Disk)
      modifies this
      ensures fresh(d) && d.files == [] && d.free == size
      ensures d.id == old(lastId) + 1 && lastId == d.id
    {
      lastId := lastId + 1;
      d := new Disk(size, lastId);
    }
  }

  /** What the disks hold, as the values the packing is stated on. */
  function Bins(disks: seq<Disk>): (r: seq<Bin>)
    reads disks
    ensures |r| == |disks|
    ensures forall k :: 0 <= k < |disks| ==> r[k] == Bin(disks[k].files, disks[k].free)
  {
    seq(|disks|, k requires 0 <= k < |disks| reads disks => Bin(disks[k].files, disks[k].free))
  }

  /** Disks numbered consecutively from first + 1; in particular no disk is listed twice. */
  predicate NumberedFrom(disks: seq<Disk>, first: nat)
  {
    forall k :: 0 <= k < |disks| ==> disks[k].id == first + k + 1
  }

  /** The 32-bit int a C conversion from a wider integer yields on two's-complement machines. */
  function ToInt32(x: int): (r: int)
    ensures -0x8000_0000 <= r < 0x8000_0000
    ensures (r - x) % 0x1_0000_0000 == 0
    ensures -0x8000_0000 <= x < 0x8000_0000 ==> r == x
  {
    (x + 0x8000_0000) % 0x1_0000_0000 - 0x8000_0000
  }

  /**
   * byrevsize as written: the off_t difference of the sizes returned as an
   * int, so that it is cut to 32 bits.
   */
  function ByRevSizeAsWritten(a: File, b: File): int
  {
    ToInt32(b.size - a.size)
  }

  /**
   * byrevsize as intended: positive when a belongs after b, that is when b
   * is the larger file, negative when a belongs first, zero on equal sizes.
   */
  function ByRevSize(a: File, b: File): (c: int)
    ensures c > 0 <==> a.size < b.size
    ensures c < 0 <==> a.size > b.size
  {
    b.size - a.size
  }

  /**
   * A file of 100 bytes and one of 2200000000 bytes: the truncated
   * difference is negative, so qsort puts the small file first.
   */
  lemma ByRevSizeAsWrittenMisorders()
    ensures var small, big := File(100, "small"), File(2200000000, "big");
      ByRevSizeAsWritten(small, big) < 0 && small.size < big.size
  {
  }

  /** Below a difference of 2^31 bytes the comparator as written is the intended one. */
  lemma ByRevSizeAsWrittenBelow2G(a: File, b: File)
    requires -0x8000_0000 <= b.size - a.size < 0x8000_0000
    ensures ByRevSizeAsWritten(a, b) == ByRevSize(a, b)
  {
  }

  /**
   * The qsort call of fit over the first n slots of the file vector, with
   * the intended comparator: those files end up largest first and are the
   * same files; the slots past n are not touched. qsort is not stable, so
   * nothing is promised about the order of files of equal size.
   */
  method SortByRevSize(a: array<File>, n: nat)
    requires n <= a.Length
    modifies a
    ensures NonIncreasing(a[..n])
    ensures multiset(a[..n]) == multiset(old(a[..n]))
    ensures a[n..] == old(a[n..])
  {
    var i := 0;
    while i < n
      invariant 0 <= i <= n
      invariant NonIncreasing(a[..i])
      invariant multiset(a[..]) == multiset(old(a[..]))
      invariant forall k :: n <= k < a.Length ==> a[k] == old(a[k])
    {
      InsertDown(a, i);
      i := i + 1;
    }
    assert a[n..] == old(a[n..]);
    PrefixPermuted(old(a[..]), a[..], n);
  }

  /** Two lists that are permutations of each other and agree from n on are permutations up to n. */
  lemma PrefixPermuted(s: seq<File>, t: seq<File>, n: nat)
    requires n <= |s| == |t| && multiset(s) == multiset(t) && s[n..] == t[n..]
    ensures multiset(s[..n]) == multiset(t[..n])
  {
    assert s == s[..n] + s[n..] && t == t[..n] + t[n..];
    assert multiset(s) == multiset(s[..n]) + multiset(s[n..]);
    assert multiset(t) == multiset(t[..n]) + multiset(s[n..]);
    forall x
      ensures multiset(s[..n])[x] == multiset(t[..n])[x]
    {
      assert multiset(s)[x] == multiset(s[..n])[x] + multiset(s[n..])[x];
      assert multiset(t)[x] == multiset(t[..n])[x] + multiset(s[n..])[x];
    }
  }

  /** One pass of the sort: a[i] moves down past the smaller files before it. */
  method InsertDown(a: array<File>, i: nat)
    requires i < a.Length && NonIncreasing(a[..i])
    modifies a
    ensures NonIncreasing(a[..i + 1])
    ensures multiset(a[..]) == multiset(old(a[..]))
    ensures forall k :: i < k < a.Length ==> a[k] == old(a[k])
  {
    var j := SiftDown(a, i);
    InsertedInOrder(a[..i + 1], j);
  }

  /**
   * The loop of one pass: swap the file at j with the one before it while
   * the comparator says that one is smaller. It stops at the place j where
   * every file before j is at least as big and every file after it smaller.
   */
  method SiftDown(a: array<File>, i: nat) returns (j: nat)
    requires i < a.Length && NonIncreasing(a[..i])
    modifies a
    ensures j <= i
    ensures forall p, q :: 0 <= p < q <= i && p != j && q != j ==> a[p].size >= a[q].size
    ensures forall q :: j < q <= i ==> a[j].size > a[q].size
    ensures j > 0 ==> a[j - 1].size >= a[j].size
    ensures multiset(a[..]) == multiset(old(a[..]))
    ensures forall k :: i < k < a.Length ==> a[k] == old(a[k])
  {
    j := i;
    while j > 0 && ByRevSize(a[j - 1], a[j]) > 0
      invariant 0 <= j <= i
      invariant forall p, q :: 0 <= p < q <= i && p != j && q != j ==> a[p].size >= a[q].size
      invariant forall q :: j < q <= i ==> a[j].size > a[q].size
      invariant multiset(a[..]) == multiset(old(a[..]))
      invariant forall k :: i < k < a.Length ==> a[k] == old(a[k])
    {
      SwapDown(a, j);
      j := j - 1;
    }
  }

  /** A file at j that is no bigger than the one before it and bigger than all after it leaves the list in order. */
  lemma InsertedInOrder(s: seq<File>, j: nat)
    requires j < |s|
    requires forall p, q :: 0 <= p < q < |s| && p != j && q != j ==> s[p].size >= s[q].size
    requires forall q :: j < q < |s| ==> s[j].size > s[q].size
    requires j > 0 ==> s[j - 1].size >= s[j].size
    ensures NonIncreasing(s)
  {
    forall p, q | 0 <= p < q < |s|
      ensures s[p].size >= s[q].size
    {
      if q == j && p < j - 1 {
        assert s[p].size >= s[j - 1].size;
      }
    }
  }

  /** One exchange of the sort: a[j] and the file before it trade places. */
  method SwapDown(a: array<File>, j: nat)
    requires 0 < j < a.Length
    modifies a
    ensures a[j - 1] == old(a[j]) && a[j] == old(a[j - 1])
    ensures forall k :: 0 <= k < a.Length && k != j - 1 && k != j ==> a[k] == old(a[k])
    ensures multiset(a[..]) == multiset(old(a[..]))
  {
    ghost var before := a[..];
    a[j - 1], a[j] := a[j], a[j - 1];
    assert a[..] == Shuffling.Swap(before, j - 1, j);
    Shuffling.SwapPermutes(before, j - 1, j);
  }

  /**
   * The inner loop of fit: the file is added to the first disk that takes
   * it, and the search stops there; when no disk takes it nothing changes.
   */
  method AddToFirstFit(disks: seq<Disk>, f: nat, size: nat, ghost first: nat) returns (added: bool)
    requires NumberedFrom(disks, first)
    modifies set d | d in disks
    ensures added <==> FirstFit(old(Bins(disks)), size) < |disks|
    ensures Bins(disks) == if added then AddToFirst(old(Bins(disks)), f, size) else old(Bins(disks))
  {
    ghost var before := Bins(disks);
    added := false;
    var j := 0;
    while j < |disks|
      invariant 0 <= j <= |disks|
      invariant Bins(disks) == before
      invariant FirstFitFrom(before, size, j) == FirstFit(before, size)
    {
      added := disks[j].AddFile(f, size);
      if added {
        assert FirstFitFrom(before, size, j) == j;
        assert forall i :: 0 <= i < |disks| && i != j ==> disks[i] != disks[j];
        assert Bins(disks) == AddToFirst(before, f, size);
        return;
      }
      j := j + 1;
    }
  }

  /**
   * One round of fit's outer loop: the file goes on the first disk with
   * room, or else on a new disk from the counter. A file too big even for
   * an empty disk is the errx of fit.c: nothing is placed and ok is false.
   */
  method PlaceFile(disks: seq<Disk>, maker: DiskMaker, f: nat, size: nat, disksize: int, ghost first: nat)
    returns (ok: bool, placed: seq<Disk>)
    requires NumberedFrom(disks, first) && maker.lastId == first + |disks|
    requires forall k :: 0 <= k < |disks| ==> disks[k].free <= disksize
    modifies maker, set d | d in disks
    ensures ok <==> size <= disksize
    ensures ok ==> forall k :: 0 <= k < |placed| ==> placed[k].free <= disksize
    ensures ok ==> Bins(placed) == Place(old(Bins(disks)), f, size, disksize)
    ensures ok ==> NumberedFrom(placed, first) && maker.lastId == first + |placed|
    ensures ok ==> |disks| <= |placed| <= |disks| + 1
    ensures ok ==> forall k :: 0 <= k < |disks| ==> placed[k] == disks[k]
    ensures ok ==> forall k :: |disks| <= k < |placed| ==> fresh(placed[k])
  {
    ghost var before := Bins(disks);
    var added := AddToFirstFit(disks, f, size, first);
    if added {
      AddedWithinCapacity(before, f, size, disksize);
      return true, disks;
    }
    FirstFitIsLowest(before, size);
    ok, placed := OpenDisk(disks, maker, f, size, disksize, first);
  }

  /** A bin with room takes the file: the file fits a disk, and no bin overflows. */
  lemma AddedWithinCapacity(bins: seq<Bin>, f: nat, size: nat, capacity: int)
    requires FirstFit(bins, size) < |bins|
    requires forall k :: 0 <= k < |bins| ==> bins[k].free <= capacity
    ensures size <= capacity && Place(bins, f, size, capacity) == AddToFirst(bins, f, size)
    ensures forall k :: 0 <= k < |bins| ==> AddToFirst(bins, f, size)[k].free <= capacity
  {
    FirstFitIsLowest(bins, size);
  }

  /**
   * The new-disk branch of fit's outer loop: a disk of `disksize` is made
   * and the file added to it; when even the new disk refuses the file, ok
   * is false and the list of disks is left as it was.
   */
  method OpenDisk(disks: seq<Disk>, maker: DiskMaker, f: nat, size: nat, disksize: int, ghost first: nat)
    returns (ok: bool, placed: seq<Disk>)
    requires NumberedFrom(disks, first) && maker.lastId == first + |disks|
    modifies maker
    ensures ok <==> size <= disksize
    ensures ok ==> |placed| == |disks| + 1 && placed[..|disks|] == disks && fresh(placed[|disks|])
    ensures ok ==> Bins(placed) == old(Bins(disks)) + [Bin([f], disksize - size)]
    ensures ok ==> NumberedFrom(placed, first) && maker.lastId == first + |placed|
  {
    var d := maker.NewDisk(disksize);
    var added := d.AddFile(f, size);
    if !added {
      return false, disks;
    }
    assert d.files == [f];
    placed := disks + [d];
    return true, placed;
  }

  /**
   * fit: sort the files largest first, then place each in turn with first
   * fit, making a new disk of `disksize` when none has room. When a file
   * does not fit even a new disk, fit stops with an error (the errx of
   * fit.c). Otherwise the disks are what the packing prescribes, numbered
   * on from the counter.
   */
  method FitFiles(files: array<File>, n: nat, maker: DiskMaker, disksize: int) returns (ok: bool, disks: seq<Disk>)
    requires n <= files.Length
    modifies files, maker
    ensures multiset(files[..n]) == multiset(old(files[..n])) && NonIncreasing(files[..n])
    ensures files[n..] == old(files[n..])
    ensures ok <==> AllFit(Sizes(files[..n]), disksize)
    ensures ok ==> Bins(disks) == Pack(Sizes(files[..n]), disksize)
    ensures ok ==> NumberedFrom(disks, old(maker.lastId)) && maker.lastId == old(maker.lastId) + |disks|
    ensures ok ==> forall k :: 0 <= k < |disks| ==> fresh(disks[k])
  {
    SortByRevSize(files, n);
    ghost var sorted := files[..];
    ghost var sizes := Sizes(sorted[..n]);
    ghost var first := maker.lastId;
    ok, disks := true, [];
    assert PackFrom(Bins(disks), sizes, 0, disksize) == Pack(sizes, disksize) by { assert Bins(disks) == []; }
    var i := 0;
    while i < n
      invariant 0 <= i <= n
      invariant files[..] == sorted
      invariant forall j :: 0 <= j < i ==> sizes[j] <= disksize
      invariant PackFrom(Bins(disks), sizes, i, disksize) == Pack(sizes, disksize)
      invariant NumberedFrom(disks, first) && maker.lastId == first + |disks|
      invariant forall k :: 0 <= k < |disks| ==> fresh(disks[k]) && disks[k].free <= disksize
    {
      var size := files[i].size;
      assert size == sizes[i];
      ghost var before := Bins(disks);
      ok, disks := PlaceFile(disks, maker, i, size, disksize, first);
      if !ok {
        assert !AllFit(Sizes(files[..n]), disksize) by { assert sizes[i] > disksize; }
        return;
      }
      PackFromStep(before, sizes, i, disksize);
      i := i + 1;
    }
    assert PackFrom(Bins(disks), sizes, i, disksize) == Bins(disks);
  }
}
