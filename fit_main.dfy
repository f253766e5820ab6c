/*
 * The driver of fit: the collect callback that nftw calls for every entry
 * under the path arguments, and main, which reads the options, collects,
 * fits and then counts, prints or links the disks.
 */
module FitMain {
  import opened Wrappers
  import opened Utils
  import opened Packing
  import opened Fit
  import opened FitOutput
  import Vectors

  // ---------------------------------------------------------------------
  // collect

  /** The type flag nftw hands to its callback (FTW_F, FTW_D, FTW_DNR, FTW_DP, FTW_NS, FTW_SL, FTW_SLN). */
  datatype EntryType = Regular | Directory | UnreadableDirectory | DirectoryAfter | NoStat | Symlink | DanglingSymlink

  /** One call of the callback: the path, its type flag, st_size and the depth below the path argument. */
  datatype Entry = Entry(name: string, kind: EntryType, size: nat, level: nat)

  /** The ways collect ends the program. */
  datatype CollectError = CantAccess(name: string) | NotRegular(name: string) | CanNeverFit(name: string)

  /** What collect does with one entry. */
  datatype Verdict = Skip | Append | Fatal(error: CollectError)

  /**
   * The decision collect makes about an entry: deeper entries are ignored
   * unless the walk is recursive; of the rest, a regular file no larger than
   * a disk is taken, a directory is passed over, and anything else is fatal.
   */
  function Decide(e: Entry, recursive: bool, disksize: int): (v: Verdict)
    ensures v == Append <==> (recursive || e.level <= 1) && e.kind == Regular && e.size <= disksize
    ensures v == Skip <==> (!recursive && e.level > 1) || e.kind == Directory
    ensures v == Fatal(CantAccess(e.name)) <==>
      (recursive || e.level <= 1) && (e.kind == NoStat || e.kind == DanglingSymlink || e.kind == UnreadableDirectory)
    ensures v == Fatal(NotRegular(e.name)) <==> (recursive || e.level <= 1) && (e.kind == DirectoryAfter || e.kind == Symlink)
    ensures v == Fatal(CanNeverFit(e.name)) <==> (recursive || e.level <= 1) && e.kind == Regular && e.size > disksize
  {
    if !recursive && e.level > 1 then Skip
    else match e.kind
      case NoStat | DanglingSymlink | UnreadableDirectory => Fatal(CantAccess(e.name))
      case Directory => Skip
      case DirectoryAfter | Symlink => Fatal(NotRegular(e.name))
      case Regular => if e.size > disksize then Fatal(CanNeverFit(e.name)) else Append
  }

  /** The collect callback with the part of ctx it reads and the files vector it fills. */
  class Collector {
    const recursive: bool
    const disksize: int
    const files: Vectors.Vector<File>

    constructor (recursive: bool, disksize: int)
      ensures this.recursive == recursive && this.disksize == disksize
      ensures fresh(files) && fresh(files.items) && files.Valid() && files.Contents() == []
    {
      this.recursive := recursive;
      this.disksize := disksize;
      files := new Vectors.Vector<File>();
    }

    /** collect: one entry; an appended file goes at the end of the vector. */
    method Collect(e: Entry) returns (v: Verdict)
      requires files.Valid()
      modifies files, files.items
      ensures v == Decide(e, recursive, disksize)
      ensures files.Valid() && (files.items == old(files.items) || fresh(files.items))
      ensures files.Contents() == old(files.Contents()) + (if v == Append then [File(e.size, e.name)] else [])
    {
      if !recursive && e.level > 1 {
        return Skip;
      }
      if e.kind == NoStat || e.kind == DanglingSymlink || e.kind == UnreadableDirectory {
        return Fatal(CantAccess(e.name));
      }
      if e.kind == Directory {
        return Skip;
      }
      if e.kind != Regular {
        return Fatal(NotRegular(e.name));
      }
      if e.size > disksize {
        return Fatal(CanNeverFit(e.name));
      }
      files.Add(File(e.size, e.name));
      return Append;
    }
  }

  /**
   * What the walks over all the path arguments leave: the files appended,
   * in the order nftw reported them, or the error of the first fatal entry.
   */
  function Collected(entries: seq<Entry>, recursive: bool, disksize: int): Result<seq<File>, CollectError>
  {
    if entries == [] then Ok([])
    else
      var e := entries[|entries| - 1];
      match Collected(entries[..|entries| - 1], recursive, disksize)
      case Err(err) => Err(err)
      case Ok(fs) =>
        match Decide(e, recursive, disksize)
        case Skip => Ok(fs)
        case Append => Ok(fs + [File(e.size, e.name)])
        case Fatal(err) => Err(err)
  }

  /** Every file collected fits on an empty disk. */
  lemma {:induction false} CollectedFit(entries: seq<Entry>, recursive: bool, disksize: int)
    requires Collected(entries, recursive, disksize).Ok?
    ensures forall i :: 0 <= i < |Collected(entries, recursive, disksize).value| ==>
      Collected(entries, recursive, disksize).value[i].size <= disksize
  {
    if entries != [] {
      CollectedFit(entries[..|entries| - 1], recursive, disksize);
    }
  }

  /** The walk succeeds exactly when no entry is fatal. */
  lemma {:induction false} CollectedOk(entries: seq<Entry>, recursive: bool, disksize: int)
    ensures Collected(entries, recursive, disksize).Ok? <==>
      forall i :: 0 <= i < |entries| ==> !Decide(entries[i], recursive, disksize).Fatal?
  {
    if entries != [] {
      var init := entries[..|entries| - 1];
      CollectedOk(init, recursive, disksize);
      assert forall i :: 0 <= i < |init| ==> init[i] == entries[i];
    }
  }

  /** A failing walk reports the first fatal entry; later entries are never looked at. */
  lemma {:induction false} CollectedStopsAtFirstFatal(entries: seq<Entry>, recursive: bool, disksize: int, i: nat)
    requires i < |entries| && Decide(entries[i], recursive, disksize).Fatal?
    requires forall j :: 0 <= j < i ==> !Decide(entries[j], recursive, disksize).Fatal?
    ensures Collected(entries, recursive, disksize) == Err(Decide(entries[i], recursive, disksize).error)
  {
    var init := entries[..|entries| - 1];
    assert forall j :: 0 <= j < |init| ==> init[j] == entries[j];
    if i == |entries| - 1 {
      CollectedOk(init, recursive, disksize);
    } else {
      CollectedStopsAtFirstFatal(init, recursive, disksize, i);
    }
  }

  /** The nftw calls of main, entry by entry, stopping at the first fatal one. */
  method CollectAll(c: Collector, entries: seq<Entry>) returns (failure: Option<CollectError>)
    requires c.files.Valid() && c.files.Contents() == []
    modifies c.files, c.files.items
    ensures c.files.Valid() && (c.files.items == old(c.files.items) || fresh(c.files.items))
    ensures failure.None? <==> Collected(entries, c.recursive, c.disksize).Ok?
    ensures failure.None? ==> c.files.Contents() == Collected(entries, c.recursive, c.disksize).value
    ensures failure.Some? ==> Collected(entries, c.recursive, c.disksize) == Err(failure.value)
  {
    var i := 0;
    assert entries[..0] == [];
    while i < |entries|
      invariant 0 <= i <= |entries|
      invariant c.files.Valid() && (c.files.items == old(c.files.items) || fresh(c.files.items))
      invariant Collected(entries[..i], c.recursive, c.disksize) == Ok(c.files.Contents())
    {
      ghost var before := c.files.Contents();
      var v := c.Collect(entries[i]);
      assert entries[..i + 1][..i] == entries[..i] && entries[..i + 1][i] == entries[i];
      assert Collected(entries[..i + 1], c.recursive, c.disksize) ==
        match v
        case Skip => Ok(before)
        case Append => Ok(before + [File(entries[i].size, entries[i].name)])
        case Fatal(err) => Err(err);
      if v.Fatal? {
        assert Collected(entries[..i + 1], c.recursive, c.disksize) == Err(v.error);
        CollectedErrSticks(entries, i + 1, c.recursive, c.disksize);
        return Some(v.error);
      }
      assert v == Skip ==> c.files.Contents() == before by { assert before + [] == before; }
      i := i + 1;
    }
    assert entries[..i] == entries;
    return None;
  }

  /** Once an entry is fatal, the entries after it change nothing. */
  lemma {:induction false} CollectedErrSticks(entries: seq<Entry>, n: nat, recursive: bool, disksize: int)
    requires n <= |entries| && Collected(entries[..n], recursive, disksize).Err?
    ensures Collected(entries, recursive, disksize) == Collected(entries[..n], recursive, disksize)
    decreases |entries| - n
  {
    if n < |entries| {
      assert entries[..n + 1][..n] == entries[..n];
      CollectedErrSticks(entries, n + 1, recursive, disksize);
    } else {
      assert entries[..n] == entries;
    }
  }

  // ---------------------------------------------------------------------
  // main

  /**
   * The options as the getopt loop meets them: every -s argument in the
   * order given, the argument of the last -l (each -l replaces the one
   * before), the -n and -r flags, and the path arguments.
   */
  datatype Options = Options(sizes: seq<string>, destdir: Option<string>, count: bool, recursive: bool, paths: seq<string>)

  /**
   * ctx.disksize after the getopt loop has read the -s arguments given:
   * 0 before any, then string_to_number of each in turn, the first one it
   * refuses ending the program.
   */
  function SizeArgs(sizes: seq<string>): Result<int, ParseError>
  {
    if sizes == [] then Ok(0)
    else
      match SizeArgs(sizes[..|sizes| - 1])
      case Err(e) => Err(e)
      case Ok(_) => StringToNumber(sizes[|sizes| - 1])
  }

  /** The disk size main works with. */
  function DiskSize(opts: Options): Result<int, ParseError>
  {
    SizeArgs(opts.sizes)
  }

  /** When every -s argument reads, the last one sets the disk size; without -s it stays 0. */
  lemma {:induction false} SizeArgsLast(sizes: seq<string>)
    requires forall i :: 0 <= i < |sizes| ==> StringToNumber(sizes[i]).Ok?
    ensures sizes == [] ==> SizeArgs(sizes) == Ok(0)
    ensures sizes != [] ==> SizeArgs(sizes) == StringToNumber(sizes[|sizes| - 1])
  {
    if sizes != [] {
      var init := sizes[..|sizes| - 1];
      SizeArgsLast(init);
    }
  }

  /** The first -s argument string_to_number refuses ends the program with its error, whatever follows. */
  lemma {:induction false} SizeArgsFirstError(sizes: seq<string>, i: nat)
    requires i < |sizes| && StringToNumber(sizes[i]).Err?
    requires forall j :: 0 <= j < i ==> StringToNumber(sizes[j]).Ok?
    ensures SizeArgs(sizes) == StringToNumber(sizes[i])
    decreases |sizes|
  {
    var init := sizes[..|sizes| - 1];
    if i < |sizes| - 1 {
      SizeArgsFirstError(init, i);
    } else {
      SizeArgsLast(init);
    }
  }

  /** A refused -s is fatal even when a good one follows: "x" does not convert, so 1m is never read. */
  lemma BadSizeBeforeGoodIsFatal()
    ensures SizeArgs(["x", "1m"]) == Err(NotANumber("x"))
  {
    NoDigitsIsFatal("x");
    SizeArgsFirstError(["x", "1m"], 0);
  }

  /** The -s arguments read one by one, as the getopt loop reads them. */
  method ReadSizes(sizes: seq<string>) returns (r: Result<int, ParseError>)
    ensures r == SizeArgs(sizes)
  {
    var disksize := 0;
    var i := 0;
    while i < |sizes|
      invariant 0 <= i <= |sizes|
      invariant SizeArgs(sizes[..i]) == Ok(disksize)
    {
      assert sizes[..i + 1][..i] == sizes[..i];
      var parsed := StringToNumber(sizes[i]);
      if parsed.Err? {
        SizeArgsErrSticks(sizes, i + 1);
        return parsed;
      }
      disksize := parsed.value;
      i := i + 1;
    }
    assert sizes[..i] == sizes;
    return Ok(disksize);
  }

  /** Once a -s argument is refused, the later ones make no difference. */
  lemma {:induction false} SizeArgsErrSticks(sizes: seq<string>, n: nat)
    requires n <= |sizes| && SizeArgs(sizes[..n]).Err?
    ensures SizeArgs(sizes) == SizeArgs(sizes[..n])
    decreases |sizes| - n
  {
    if n < |sizes| {
      assert sizes[..n + 1][..n] == sizes[..n];
      SizeArgsErrSticks(sizes, n + 1);
    } else {
      assert sizes[..n] == sizes;
    }
  }

  /** Whether main gets past the usage check. */
  predicate Proceeds(opts: Options)
  {
    DiskSize(opts).Ok? && opts.paths != [] && DiskSize(opts).value > 0
  }

  datatype FitError = BadSize(parse: ParseError) | CollectFailed(collect: CollectError) | NoFiles | TooManyDisks(count: nat)

  /** How a run of fit ends: usage, an error exit, or one of its three outputs. */
  datatype Outcome = Usage | Failed(error: FitError) | Counted(line: string) | Printed(lines: seq<string>) | Linked(steps: seq<LinkStep>)

  predicate Fitted(out: Outcome)
  {
    out.Counted? || out.Printed? || out.Linked? || (out.Failed? && out.error.TooManyDisks?)
  }

  /** What the printing loop of main prints for the first n disks: printdisk for disk 1, 2, ..., n in turn. */
  function Report(bins: seq<Bin>, files: seq<File>, disksize: int, humanSize: int -> string, n: nat): seq<string>
    requires n <= |bins| && disksize > 0 && IndicesBelow(bins, |files|)
  {
    if n == 0 then []
    else Report(bins, files, disksize, humanSize, n - 1) + DiskLines(n, bins[n - 1], files, disksize, humanSize)
  }

  /** What the linking loop of main does for the first n disks: linkdisk for disk 1, 2, ..., n in turn. */
  function Links(bins: seq<Bin>, files: seq<File>, destdir: string, n: nat): seq<LinkStep>
    requires n <= |bins| && n <= 9999 && IndicesBelow(bins, |files|)
  {
    if n == 0 then []
    else Links(bins, files, destdir, n - 1) + DiskLinks(DiskDirectory(destdir, n), bins[n - 1].files, files)
  }

  /** One more disk printed. */
  lemma ReportNext(bins: seq<Bin>, files: seq<File>, disksize: int, humanSize: int -> string, i: nat,
                   lines: seq<string>, more: seq<string>)
    requires i < |bins| && disksize > 0 && IndicesBelow(bins, |files|)
    requires lines == Report(bins, files, disksize, humanSize, i)
    requires more == DiskLines(i + 1, bins[i], files, disksize, humanSize)
    ensures lines + more == Report(bins, files, disksize, humanSize, i + 1)
  {
  }

  /** One more disk linked. */
  lemma LinksNext(bins: seq<Bin>, files: seq<File>, destdir: string, i: nat, steps: seq<LinkStep>, more: seq<LinkStep>)
    requires i < |bins| && i < 9999 && IndicesBelow(bins, |files|)
    requires steps == Links(bins, files, destdir, i)
    requires more == DiskLinks(DiskDirectory(destdir, i + 1), bins[i].files, files)
    ensures steps + more == Links(bins, files, destdir, i + 1)
  {
  }

  /**
   * main. The walks are given as the entries nftw reports, in order, over
   * all the path arguments; humanSize stands for number_to_string. Besides
   * the outcome it returns the sorted file list and the disks it made.
   */
  method Run(opts: Options, entries: seq<Entry>, humanSize: int -> string) returns (out: Outcome, files: seq<File>, bins: seq<Bin>)
    ensures DiskSize(opts).Err? ==> out == Failed(BadSize(DiskSize(opts).error))
    ensures out.Failed? && out.error.BadSize? <==> DiskSize(opts).Err?
    ensures DiskSize(opts).Ok? ==> (out == Usage <==> opts.paths == [] || DiskSize(opts).value <= 0)
    ensures out != Usage && !(out.Failed? && out.error.BadSize?) ==> Proceeds(opts)
    ensures out.Failed? && out.error.CollectFailed? ==>
      Collected(entries, opts.recursive, DiskSize(opts).value) == Err(out.error.collect)
    ensures out.Failed? && out.error.CollectFailed? <==>
      Proceeds(opts) && Collected(entries, opts.recursive, DiskSize(opts).value).Err?
    ensures out == Failed(NoFiles) <==> Proceeds(opts) && Collected(entries, opts.recursive, DiskSize(opts).value) == Ok([])
    ensures Fitted(out) <==>
      Proceeds(opts) && Collected(entries, opts.recursive, DiskSize(opts).value).Ok? &&
      Collected(entries, opts.recursive, DiskSize(opts).value).value != []
    ensures Fitted(out) ==> (
      Collected(entries, opts.recursive, DiskSize(opts).value).Ok? &&
      var collected := Collected(entries, opts.recursive, DiskSize(opts).value).value;
      collected != [] && multiset(files) == multiset(collected) && NonIncreasing(files) &&
      bins == Pack(Sizes(files), DiskSize(opts).value) && IndicesBelow(bins, |files|) && 1 <= |bins|)
    ensures out.Failed? && out.error.TooManyDisks? ==> out.error.count == |bins| > 9999
    ensures out.Counted? ==> opts.count && |bins| <= 9999 && out.line == CountLine(|bins|)
    ensures out.Printed? ==> (
      !opts.count && opts.destdir.None? && |bins| <= 9999 &&
      out.lines == Report(bins, files, DiskSize(opts).value, humanSize, |bins|))
    ensures out.Linked? ==> (
      !opts.count && opts.destdir.Some? && |bins| <= 9999 &&
      out.steps == Links(bins, files, Cleaned(opts.destdir.value), |bins|))
  {
    files, bins := [], [];
    var parsed := ReadSizes(opts.sizes);
    if parsed.Err? {
      return Failed(BadSize(parsed.error)), files, bins;
    }
    var disksize := parsed.value;
    var destdir: Option<string> := None;
    if opts.destdir.Some? {
      var cleaned := CleanPath(opts.destdir.value);
      destdir := Some(cleaned);
    }
    if opts.paths == [] || disksize <= 0 {
      return Usage, files, bins;
    }
    out, files, bins := CollectAndFit(entries, opts.recursive, disksize, opts.count, destdir, humanSize);
  }

  /** main from the walks on: collect, refuse an empty list, then fit and show. */
  method CollectAndFit(entries: seq<Entry>, recursive: bool, disksize: int, count: bool, destdir: Option<string>,
                       humanSize: int -> string)
    returns (out: Outcome, files: seq<File>, bins: seq<Bin>)
    requires disksize > 0
    ensures out != Usage && !(out.Failed? && out.error.BadSize?)
    ensures out.Failed? && out.error.CollectFailed? <==> Collected(entries, recursive, disksize).Err?
    ensures out.Failed? && out.error.CollectFailed? ==> Collected(entries, recursive, disksize) == Err(out.error.collect)
    ensures out == Failed(NoFiles) <==> Collected(entries, recursive, disksize) == Ok([])
    ensures Fitted(out) ==> (
      Collected(entries, recursive, disksize).Ok? &&
      var collected := Collected(entries, recursive, disksize).value;
      collected != [] && multiset(files) == multiset(collected) && NonIncreasing(files) &&
      bins == Pack(Sizes(files), disksize) && IndicesBelow(bins, |files|) && 1 <= |bins|)
    ensures out.Failed? && out.error.TooManyDisks? ==> out.error.count == |bins| > 9999
    ensures out.Counted? ==> count && |bins| <= 9999 && out.line == CountLine(|bins|)
    ensures out.Printed? ==> !count && destdir.None? && |bins| <= 9999 && out.lines == Report(bins, files, disksize, humanSize, |bins|)
    ensures out.Linked? ==> !count && destdir.Some? && |bins| <= 9999 && out.steps == Links(bins, files, destdir.value, |bins|)
  {
    files, bins := [], [];
    var c := new Collector(recursive, disksize);
    var failure := CollectAll(c, entries);
    if failure.Some? {
      return Failed(CollectFailed(failure.value)), files, bins;
    }
    if c.files.size == 0 {
      return Failed(NoFiles), files, bins;
    }
    CollectedFit(entries, recursive, disksize);
    out, files, bins := FitAndShow(c.files, disksize, count, destdir, humanSize);
  }

  /**
   * The rest of main once the files are collected: fit them, refuse more
   * than 9999 disks, then count, print or link the disks.
   */
  method FitAndShow(collected: Vectors.Vector<File>, disksize: int, count: bool, destdir: Option<string>,
                    humanSize: int -> string)
    returns (out: Outcome, files: seq<File>, bins: seq<Bin>)
    requires collected.Valid() && collected.size > 0 && disksize > 0
    requires forall i :: 0 <= i < collected.size ==> collected.items[i].size <= disksize
    modifies collected.items
    ensures Fitted(out)
    ensures multiset(files) == multiset(old(collected.Contents())) && NonIncreasing(files)
    ensures bins == Pack(Sizes(files), disksize) && IndicesBelow(bins, |files|) && 1 <= |bins|
    ensures out.Failed? ==> out.error == TooManyDisks(|bins|) && |bins| > 9999
    ensures out.Counted? ==> count && |bins| <= 9999 && out.line == CountLine(|bins|)
    ensures out.Printed? ==> !count && destdir.None? && |bins| <= 9999 && out.lines == Report(bins, files, disksize, humanSize, |bins|)
    ensures out.Linked? ==> !count && destdir.Some? && |bins| <= 9999 && out.steps == Links(bins, files, destdir.value, |bins|)
  {
    var maker := new DiskMaker();
    var ok, disks := FitFiles(collected.items, collected.size, maker, disksize);
    files := collected.items[..collected.size];
    PermutedFit(files, old(collected.items[..collected.size]), disksize);
    assert ok;
    bins := Bins(disks);
    PackIndicesBelow(Sizes(files), disksize);
    PackUsesAtMostOneDiskPerFile(Sizes(files), disksize);
    if |disks| > 9999 {
      return Failed(TooManyDisks(|disks|)), files, bins;
    }
    if count {
      return Counted(CountLine(|disks|)), files, bins;
    }
    out := ShowDisks(disks, files, destdir, disksize, humanSize);
  }

  /** A permutation of files that each fit fits file by file. */
  lemma PermutedFit(s: seq<File>, t: seq<File>, disksize: int)
    requires multiset(s) == multiset(t)
    requires forall i :: 0 <= i < |t| ==> t[i].size <= disksize
    ensures AllFit(Sizes(s), disksize)
  {
    forall i | 0 <= i < |s|
      ensures Sizes(s)[i] <= disksize
    {
      assert s[i] in multiset(t);
      var j :| 0 <= j < |t| && t[j] == s[i];
    }
  }

  /**
   * The loop at the end of main: printdisk, or linkdisk under destdir, for
   * every disk in order. Whether -l was given does not change inside the
   * loop, so the test is made once, outside it.
   */
  method ShowDisks(disks: seq<Disk>, files: seq<File>, destdir: Option<string>, disksize: int, humanSize: int -> string)
    returns (out: Outcome)
    requires NumberedFrom(disks, 0) && |disks| <= 9999 && disksize > 0
    requires IndicesBelow(Bins(disks), |files|)
    ensures destdir.None? ==> out == Printed(Report(Bins(disks), files, disksize, humanSize, |disks|))
    ensures destdir.Some? ==> out == Linked(Links(Bins(disks), files, destdir.value, |disks|))
  {
    if destdir.Some? {
      var steps := LinkDisks(disks, files, destdir.value);
      out := Linked(steps);
    } else {
      var lines := PrintDisks(disks, files, disksize, humanSize);
      out := Printed(lines);
    }
  }

  /** printdisk for every disk in order. */
  method PrintDisks(disks: seq<Disk>, files: seq<File>, disksize: int, humanSize: int -> string) returns (lines: seq<string>)
    requires NumberedFrom(disks, 0) && disksize > 0
    requires IndicesBelow(Bins(disks), |files|)
    ensures lines == Report(Bins(disks), files, disksize, humanSize, |disks|)
  {
    ghost var bins := Bins(disks);
    lines := [];
    var i := 0;
    while i < |disks|
      invariant 0 <= i <= |disks|
      invariant lines == Report(bins, files, disksize, humanSize, i)
    {
      var d := disks[i];
      assert bins[i] == Bin(d.files, d.free) && d.id == i + 1;
      var more := PrintDisk(d, files, disksize, humanSize);
      ReportNext(bins, files, disksize, humanSize, i, lines, more);
      lines := lines + more;
      i := i + 1;
    }
  }

  /** linkdisk under destdir for every disk in order; no disk number passes 9999 here. */
  method LinkDisks(disks: seq<Disk>, files: seq<File>, destdir: string) returns (steps: seq<LinkStep>)
    requires NumberedFrom(disks, 0) && |disks| <= 9999
    requires IndicesBelow(Bins(disks), |files|)
    ensures steps == Links(Bins(disks), files, destdir, |disks|)
  {
    ghost var bins := Bins(disks);
    steps := [];
    var i := 0;
    while i < |disks|
      invariant 0 <= i <= |disks|
      invariant steps == Links(bins, files, destdir, i)
    {
      var d := disks[i];
      assert bins[i] == Bin(d.files, d.free) && d.id == i + 1;
      var r := LinkDisk(d, files, destdir);
      LinksNext(bins, files, destdir, i, steps, r.value);
      steps := steps + r.value;
      i := i + 1;
    }
  }
}
