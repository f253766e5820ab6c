/**
 * What fit.c shows once the disks are made: the count line of -n, the
 * report of printdisk and the links of linkdisk. number_to_string renders
 * sizes in floating point and is not part of this model; its result enters
 * as the parameter humanSize. link, makedirs and the terminal are not
 * modelled either: linkdisk yields the steps it would take. Every printed
 * line is a string without its terminating newline.
 */
module FitOutput {
  import opened Wrappers
  import opened Decimal
  import opened Utils
  import opened Packing
  import opened Fit

  // ---------------------------------------------------------------------
  // The count line of -n

  /** printf "%lu disk%s.\n": the number, then "disk", with an "s" only for more than one. */
  function CountLine(n: nat): string
  {
    Render(n) + " disk" + (if n > 1 then "s" else "") + "."
  }

  /** The count line starts with the number in decimal, and says "disks" exactly when n > 1. */
  lemma CountLineReadsBack(n: nat)
    ensures var line, d := CountLine(n), Render(n);
      line[..|d|] == d && Value(d) == n && line[|d|..|d| + 5] == " disk" &&
      (n > 1 <==> line[|d| + 5..] == "s.") &&
      (n <= 1 <==> line[|d| + 5..] == ".")
  {
    RenderValue(n);
    var d := Render(n);
    var line := CountLine(n);
    assert line == d + (" disk" + (if n > 1 then "s" else "") + ".");
    assert line[|d|..] == " disk" + (if n > 1 then "s" else "") + ".";
  }

  // ---------------------------------------------------------------------
  // printdisk

  function Abs(x: int): nat
  {
    if x < 0 then -x else x
  }

  /**
   * C's / on integers: the quotient truncated toward zero. Its magnitude is
   * the largest q with |q| * |b| <= |a|, and it is negative only when the
   * operands' signs differ.
   */
  function CDiv(a: int, b: int): (q: int)
    requires b != 0
    ensures Abs(q) * Abs(b) <= Abs(a) < (Abs(q) + 1) * Abs(b)
    ensures q != 0 ==> (q < 0 <==> (a < 0) != (b < 0))
    ensures a >= 0 && b > 0 ==> q == a / b
  {
    var m: int := Abs(a) / Abs(b);
    var q := if (a < 0) != (b < 0) then -m else m;
    TruncatedQuotient(a, b, q);
    q
  }

  /** The quotient's magnitude is the floor of |a| / |b|, with the sign C gives it. */
  lemma TruncatedQuotient(a: int, b: int, q: int)
    requires b != 0
    requires q == (if (a < 0) != (b < 0) then -(Abs(a) / Abs(b)) else Abs(a) / Abs(b))
    ensures Abs(q) * Abs(b) <= Abs(a) < (Abs(q) + 1) * Abs(b)
    ensures q != 0 ==> (q < 0 <==> (a < 0) != (b < 0))
    ensures a >= 0 && b > 0 ==> q == a / b
  {
    var m := QuotientBounds(Abs(a), Abs(b));
    assert Abs(q) == m;
  }

  /** The percentage of printdisk: (int) (free * 100 / disksize). */
  function Percent(free: int, disksize: int): int
    requires disksize > 0
  {
    ToInt32(CDiv(free * 100, disksize))
  }

  /** Cancels a positive factor from an inequality; used by PercentInRange. */
  lemma MulCancelLe(x: int, y: int, d: int)
    requires d > 0 && x * d <= y * d
    ensures x <= y
  {
  }

  /** Cancels a positive factor from a strict inequality; used by PercentInRange. */
  lemma MulCancelLt(x: int, y: int, d: int)
    requires d > 0 && x * d < y * d
    ensures x < y
  {
  }

  /**
   * On a disk that is not over-full the percentage is the free share
   * rounded down, between 0 and 100; it is 100 exactly on an empty disk
   * and 0 exactly when less than one percent is free.
   */
  lemma PercentInRange(free: int, disksize: int)
    requires 0 <= free <= disksize && 0 < disksize
    ensures var p := Percent(free, disksize);
      0 <= p <= 100 &&
      p * disksize <= free * 100 < (p + 1) * disksize &&
      (p == 100 <==> free == disksize) &&
      (p == 0 <==> free * 100 < disksize)
  {
    var a := free * 100;
    var q := QuotientBounds(a, disksize);
    assert a <= disksize * 100;
    MulCancelLe(q, 100, disksize);
    assert Percent(free, disksize) == q;
    if free == disksize {
      MulCancelLt(100, q + 1, disksize);
    }
    if a < disksize {
      MulCancelLt(q, 1, disksize);
    }
  }

  /** The quotient of Euclidean division brackets the dividend. */
  lemma QuotientBounds(a: int, d: int) returns (q: int)
    requires a >= 0 && d > 0
    ensures q == a / d && 0 <= q
    ensures q * d <= a < (q + 1) * d
  {
    q := a / d;
    var r := a % d;
    assert a == q * d + r && 0 <= r < d;
    assert (q + 1) * d == q * d + d;
  }

  /** printf "%d". */
  function IntText(x: int): string
  {
    if x < 0 then "-" + Render(-x) else Render(x)
  }

  /** The header printdisk writes into buf: "Disk #<id>, <percent>% (<free>) free:". */
  function Header(id: nat, free: int, disksize: int, humanSize: int -> string): string
    requires disksize > 0
  {
    ("Disk #" + Render(id)) + (", " + IntText(Percent(free, disksize)) + "% (" + humanSize(free) + ") free:")
  }

  /** The header shows the disk number in decimal right after "Disk #". */
  lemma HeaderReadsBack(id: nat, free: int, disksize: int, humanSize: int -> string)
    requires disksize > 0
    ensures var h, d := Header(id, free, disksize, humanSize), Render(id);
      h[..6] == "Disk #" && h[6..6 + |d|] == d && Value(h[6..6 + |d|]) == id && h[6 + |d|] == ','
  {
    RenderValue(id);
    var d := Render(id);
    var a := "Disk #" + d;
    var rest := ", " + IntText(Percent(free, disksize)) + "% (" + humanSize(free) + ") free:";
    assert rest[0] == ',';
    assert a[..6] == "Disk #" && a[6..] == d;
  }

  /** hline: a row of n dashes. */
  function Rule(n: nat): (r: string)
    ensures |r| == n && forall i :: 0 <= i < n ==> r[i] == '-'
  {
    seq(n, i => '-')
  }

  /** printf "%10s": s right-aligned in ten columns, or s itself when it is longer. */
  function PadLeft10(s: string): (r: string)
    ensures |r| == if |s| < 10 then 10 else |s|
    ensures r[|r| - |s|..] == s
    ensures forall i :: 0 <= i < |r| - |s| ==> r[i] == ' '
  {
    if |s| < 10 then seq(10 - |s|, i => ' ') + s else s
  }

  /** One file line of printdisk: its size right-aligned, a space and its name as collected. */
  function FileLine(f: File, humanSize: int -> string): string
  {
    PadLeft10(humanSize(f.size)) + (" " + f.name)
  }

  predicate IndicesIn(ids: seq<nat>, files: seq<File>)
  {
    forall j :: 0 <= j < |ids| ==> ids[j] < |files|
  }

  /** What printdisk prints for a disk, one string per line. */
  function DiskLines(id: nat, b: Bin, files: seq<File>, disksize: int, humanSize: int -> string): seq<string>
    requires disksize > 0 && IndicesIn(b.files, files)
  {
    var h := Header(id, b.free, disksize, humanSize);
    [Rule(|h|), h, Rule(|h|)] + FileLines(b.files, files, humanSize) + [""]
  }

  function FileLines(ids: seq<nat>, files: seq<File>, humanSize: int -> string): (r: seq<string>)
    requires IndicesIn(ids, files)
    ensures |r| == |ids|
  {
    seq(|ids|, j requires 0 <= j < |ids| && IndicesIn(ids, files) => FileLine(files[ids[j]], humanSize))
  }

  /**
   * printdisk's layout: the header framed by two rules of its own length,
   * then one line per file in the order the files went on the disk, then
   * an empty line.
   */
  lemma DiskLinesLayout(id: nat, b: Bin, files: seq<File>, disksize: int, humanSize: int -> string)
    requires disksize > 0 && IndicesIn(b.files, files)
    ensures var lines, h := DiskLines(id, b, files, disksize, humanSize), Header(id, b.free, disksize, humanSize);
      |lines| == |b.files| + 4 && lines[1] == h && lines[0] == lines[2] == Rule(|h|) && lines[|lines| - 1] == "" &&
      lines[3..|lines| - 1] == FileLines(b.files, files, humanSize)
  {
  }

  /** The line for a file ends with a space and the file's name as collected, after at least ten columns. */
  lemma FileLineEndsWithName(f: File, humanSize: int -> string)
    ensures var line := FileLine(f, humanSize);
      |line| >= 11 + |f.name| && line[|line| - |f.name|..] == f.name && line[|line| - |f.name| - 1] == ' '
  {
    var pad := PadLeft10(humanSize(f.size));
    var t := " " + f.name;
    assert t[1..] == f.name;
  }

  /** printdisk: the header, its two rules, one line per file, then an empty line. */
  method PrintDisk(d: Disk, files: seq<File>, disksize: int, humanSize: int -> string) returns (lines: seq<string>)
    requires disksize > 0 && IndicesIn(d.files, files)
    ensures lines == DiskLines(d.id, Bin(d.files, d.free), files, disksize, humanSize)
  {
    var h := Header(d.id, d.free, disksize, humanSize);
    var body := PrintFiles(d.files, files, humanSize);
    lines := [Rule(|h|), h, Rule(|h|)] + body + [""];
  }

  /** The loop of printdisk over the disk's files: one line per file, in disk order. */
  method PrintFiles(ids: seq<nat>, files: seq<File>, humanSize: int -> string) returns (body: seq<string>)
    requires IndicesIn(ids, files)
    ensures body == FileLines(ids, files, humanSize)
  {
    body := [];
    var i := 0;
    while i < |ids|
      invariant 0 <= i <= |ids| && |body| == i
      invariant forall j :: 0 <= j < i ==> body[j] == FileLine(files[ids[j]], humanSize)
    {
      body := body + [FileLine(files[ids[i]], humanSize)];
      i := i + 1;
    }
  }

  // ---------------------------------------------------------------------
  // linkdisk

  /** The disk directory: destdir, a '/' and the number in four digits, cleaned. */
  function DiskDirectory(destdir: string, id: nat): string
    requires id <= 9999
  {
    Cleaned(destdir + "/" + ZeroPad4(id))
  }

  lemma {:induction false} CollapseAppendPlain(s: string, t: string)
    requires forall i :: 0 <= i < |t| ==> t[i] != '/'
    ensures Collapse(s + t) == Collapse(s) + t
  {
    if t == [] {
      assert s + t == s;
    } else {
      var u := t[..|t| - 1];
      CollapseAppendPlain(s, u);
      assert (s + t)[..|s + t| - 1] == s + u;
      assert (s + t)[|s + t| - 1] == t[|t| - 1] != '/';
      assert Collapse(s + t) == Collapse(s + u) + [t[|t| - 1]];
      assert t == u + [t[|t| - 1]];
      assert Collapse(s) + u + [t[|t| - 1]] == Collapse(s) + t;
    }
  }

  /**
   * The disk directory is the cleaned destdir, a '/' and the four digits of
   * the number: the last four characters read back as the disk number.
   */
  lemma DiskDirectoryShape(destdir: string, id: nat)
    requires id <= 9999
    ensures var dir := DiskDirectory(destdir, id);
      |dir| >= 5 && dir[|dir| - 5] == '/' && dir[|dir| - 4..] == ZeroPad4(id) && Value(dir[|dir| - 4..]) == id &&
      dir == Collapse(destdir + "/") + ZeroPad4(id)
  {
    var pad := ZeroPad4(id);
    var s := destdir + "/";
    assert destdir + "/" + pad == s + pad;
    CollapseAppendPlain(s, pad);
    CollapseShape(s);
    var c := Collapse(s);
    assert c != [] && c[|c| - 1] == '/';
    var b := c + pad;
    assert b[|b| - 1] == pad[3] != '/';
    assert b[|b| - 4..] == pad;
  }

  /** Different disks get different directories. */
  lemma DiskDirectoriesDiffer(destdir: string, i: nat, j: nat)
    requires i <= 9999 && j <= 9999 && i != j
    ensures DiskDirectory(destdir, i) != DiskDirectory(destdir, j)
  {
    DiskDirectoryShape(destdir, i);
    DiskDirectoryShape(destdir, j);
  }

  predicate HasSlash(s: string)
  {
    exists i :: 0 <= i < |s| && s[i] == '/'
  }

  /** strrchr(s, '/'): the position of the last '/'. */
  function LastSlash(s: string): (k: nat)
    requires HasSlash(s)
    ensures k < |s| && s[k] == '/' && forall i :: k < i < |s| ==> s[i] != '/'
  {
    if s[|s| - 1] == '/' then |s| - 1
    else
      var p := s[..|s| - 1];
      assert HasSlash(p) by {
        var i :| 0 <= i < |s| && s[i] == '/';
        assert p[i] == '/';
      }
      LastSlash(p)
  }

  /** A '/' with none after it is the last one. */
  lemma LastSlashIs(s: string, k: nat)
    requires k < |s| && s[k] == '/' && forall i :: k < i < |s| ==> s[i] != '/'
    ensures HasSlash(s) && LastSlash(s) == k
  {
  }

  /** One link of linkdisk: makedirs of the target's parent, link(name, target), and the line printed. */
  datatype LinkStep = LinkStep(parent: string, source: string, target: string, line: string)

  function LinkFor(dir: string, name: string): LinkStep
  {
    var target := dir + "/" + name;
    assert HasSlash(target) by { assert target[|dir|] == '/'; }
    LinkStep(target[..LastSlash(target)], name, target, name + " -> " + dir)
  }

  /**
   * The target is the disk directory joined with the name as collected, so
   * the directories made first are the disk directory itself, or it joined
   * with the directory part of the name when the name has one.
   */
  lemma LinkParent(dir: string, name: string)
    ensures var step := LinkFor(dir, name);
      step.target == dir + "/" + name &&
      step.parent == if HasSlash(name) then dir + "/" + name[..LastSlash(name)] else dir
  {
    if HasSlash(name) {
      NestedParent(dir, name);
    } else {
      PlainParent(dir, name);
    }
  }

  lemma PlainParent(dir: string, name: string)
    requires !HasSlash(name)
    ensures HasSlash(dir + "/" + name) && (dir + "/" + name)[..LastSlash(dir + "/" + name)] == dir
  {
    var target := dir + "/" + name;
    forall i | |dir| < i < |target|
      ensures target[i] != '/'
    {
      assert target[i] == name[i - |dir| - 1];
    }
    LastSlashIs(target, |dir|);
    assert target[..|dir|] == dir;
  }

  lemma NestedParent(dir: string, name: string)
    requires HasSlash(name)
    ensures HasSlash(dir + "/" + name) &&
      (dir + "/" + name)[..LastSlash(dir + "/" + name)] == dir + "/" + name[..LastSlash(name)]
  {
    var target := dir + "/" + name;
    var m := LastSlash(name);
    forall i | |dir| + 1 + m < i < |target|
      ensures target[i] != '/'
    {
      assert target[i] == name[i - |dir| - 1];
    }
    assert target[|dir| + 1 + m] == name[m];
    LastSlashIs(target, |dir| + 1 + m);
    assert target[..|dir| + 1 + m] == dir + "/" + name[..m];
  }

  /** Why linkdisk stops: errx "Number too big for format string." */
  datatype LinkError = NumberTooBig(id: nat)

  function DiskLinks(dir: string, ids: seq<nat>, files: seq<File>): (r: seq<LinkStep>)
    requires IndicesIn(ids, files)
    ensures |r| == |ids|
  {
    seq(|ids|, j requires 0 <= j < |ids| && IndicesIn(ids, files) => LinkFor(dir, files[ids[j]].name))
  }

  /**
   * linkdisk: a number past 9999 does not fit the four-digit directory name
   * and is fatal; otherwise every file of the disk, in order, is linked
   * under the disk directory.
   */
  method LinkDisk(d: Disk, files: seq<File>, destdir: string) returns (r: Result<seq<LinkStep>, LinkError>)
    requires IndicesIn(d.files, files)
    ensures r.Err? <==> d.id > 9999
    ensures r.Err? ==> r.error == NumberTooBig(d.id)
    ensures r.Ok? ==> r.value == DiskLinks(DiskDirectory(destdir, d.id), d.files, files)
  {
    if d.id > 9999 {
      return Err(NumberTooBig(d.id));
    }
    var path := CleanPath(destdir + "/" + ZeroPad4(d.id));
    var steps := LinkFiles(path, d.files, files);
    return Ok(steps);
  }

  /** The loop of linkdisk: one link step per file of the disk, in order. */
  method LinkFiles(path: string, ids: seq<nat>, files: seq<File>) returns (steps: seq<LinkStep>)
    requires IndicesIn(ids, files)
    ensures steps == DiskLinks(path, ids, files)
  {
    steps := [];
    var i := 0;
    while i < |ids|
      invariant 0 <= i <= |ids| && |steps| == i
      invariant forall j :: 0 <= j < i ==> steps[j] == LinkFor(path, files[ids[j]].name)
    {
      steps := steps + [LinkFor(path, files[ids[i]].name)];
      i := i + 1;
    }
  }
}
