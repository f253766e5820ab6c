/**
 * The parsing helpers of utils.c: string_to_number, which reads a size with
 * an optional one-letter unit, and clean_path, which collapses runs of '/'
 * and drops a trailing one.
 */
module Utils {
  import opened Wrappers
  import opened Decimal

  // The 1000-based unit multipliers of string_to_number.
  const KB: nat := 1000
  const MB: nat := KB * KB
  const GB: nat := MB * KB
  const TB: nat := GB * KB

  /** Why string_to_number gives up (the program then exits through die). */
  datatype ParseError =
    | NotANumber(input: string)  // "Can't convert string '%s' to a number."
    | UnknownUnit(unit: string)  // "Unknown unit: '%s'"

  /** isspace in the C locale: the characters strtol skips before a number. */
  predicate IsSpace(c: char)
  {
    c == ' ' || c == '\t' || c == '\n' || c == '\U{000B}' || c == '\U{000C}' || c == '\r'
  }

  function SkipSpace(s: string): (r: string)
    ensures |r| <= |s|
    ensures r != [] ==> !IsSpace(r[0])
  {
    if s != [] && IsSpace(s[0]) then SkipSpace(s[1..]) else s
  }

  /** The length of the run of decimal digits at the front of s. */
  function DigitRun(s: string): (n: nat)
    ensures n <= |s| && AllDigits(s[..n])
    ensures n < |s| ==> !IsDigit(s[n])
  {
    if s != [] && IsDigit(s[0]) then
      var n := 1 + DigitRun(s[1..]);
      assert forall i :: 1 <= i < n ==> s[..n][i] == s[1..][..n - 1][i - 1];
      n
    else 0
  }

  /** tolower on the ASCII letters. */
  function ToLower(c: char): char
  {
    if 'A' <= c <= 'Z' then (c as int - 'A' as int + 'a' as int) as char else c
  }

  /** The switch of string_to_number: the factor a one-letter unit stands for. */
  function Multiplier(c: char): Option<nat>
  {
    match ToLower(c)
    case 't' => Some(TB)
    case 'g' => Some(GB)
    case 'm' => Some(MB)
    case 'k' => Some(KB)
    case 'b' => Some(1)
    case _ => None
  }

  /** What strtol reports: the number read and the rest of the string after its digits. */
  datatype Conversion = Conversion(num: int, rest: string)

  /**
   * strtol in base 10: leading white space, an optional sign, then the
   * digits. Without a digit nothing is converted (unit == str in the
   * source), which is None here. Integers are unbounded: strtol's
   * saturation at LONG_MAX is not modelled.
   */
  function Strtol(str: string): Option<Conversion>
  {
    var t := SkipSpace(str);
    var signed := t != [] && (t[0] == '-' || t[0] == '+');
    var body := if signed then t[1..] else t;
    var n := DigitRun(body);
    if n == 0 then None
    else Some(Conversion(if signed && t[0] == '-' then 0 - Value(body[..n]) else Value(body[..n]), body[n..]))
  }

  /** The unit part of string_to_number: nothing, or exactly one unit letter; anything else is fatal. */
  function ScaleByUnit(num: int, unit: string): Result<int, ParseError>
  {
    if unit == [] then Ok(num)
    else if |unit| == 1 && Multiplier(unit[0]).Some? then Ok(num * Multiplier(unit[0]).value)
    else Err(UnknownUnit(unit))
  }

  /**
   * string_to_number: strtol, then the unit. The unchecked overflow of
   * num * TB in off_t is not modelled.
   */
  function StringToNumber(str: string): Result<int, ParseError>
  {
    match Strtol(str)
    case None => Err(NotANumber(str))
    case Some(c) => ScaleByUnit(c.num, c.rest)
  }

  lemma {:induction false} DigitRunOfDigits(ds: string, rest: string)
    requires AllDigits(ds)
    requires rest == [] || !IsDigit(rest[0])
    ensures DigitRun(ds + rest) == |ds|
  {
    if ds != [] {
      assert (ds + rest)[1..] == ds[1..] + rest;
      DigitRunOfDigits(ds[1..], rest);
    }
  }

  /** strtol reads an unsigned digit string up to the first non-digit. */
  lemma StrtolDigits(ds: string, rest: string)
    requires ds != [] && AllDigits(ds)
    requires rest == [] || !IsDigit(rest[0])
    ensures Strtol(ds + rest) == Some(Conversion(Value(ds), rest))
  {
    DigitRunOfDigits(ds, rest);
    assert SkipSpace(ds + rest) == ds + rest;
    assert (ds + rest)[..|ds|] == ds && (ds + rest)[|ds|..] == rest;
  }

  /** A digit string followed by `rest`, as string_to_number splits it. */
  lemma NumberThenUnit(ds: string, rest: string)
    requires ds != [] && AllDigits(ds)
    requires rest == [] || !IsDigit(rest[0])
    ensures StringToNumber(ds + rest) ==
      if rest == [] then Ok(Value(ds))
      else if |rest| == 1 && Multiplier(rest[0]).Some? then Ok(Value(ds) * Multiplier(rest[0]).value)
      else Err(UnknownUnit(rest))
  {
    StrtolDigits(ds, rest);
  }

  /** Without a suffix the number is returned unchanged; this is the inverse of printf "%lu". */
  lemma NumberRoundTrip(n: nat)
    ensures StringToNumber(Render(n)) == Ok(n)
  {
    RenderValue(n);
    NumberThenUnit(Render(n), []);
    assert Render(n) + [] == Render(n);
  }

  /** A leading '-' negates the number. */
  lemma NegativeRoundTrip(n: nat)
    ensures StringToNumber("-" + Render(n)) == Ok(0 - n)
  {
    RenderValue(n);
    MinusNumber(Render(n));
  }

  lemma MinusNumber(ds: string)
    requires ds != [] && AllDigits(ds)
    ensures Strtol("-" + ds) == Some(Conversion(0 - Value(ds), []))
  {
    assert DigitRun(ds) == |ds| by {
      assert ds + [] == ds;
      DigitRunOfDigits(ds, []);
    }
    var t := "-" + ds;
    assert SkipSpace(t) == t && t[1..] == ds;
    assert ds[..|ds|] == ds && ds[|ds|..] == [];
  }

  /** A digit string followed by one unit letter is the number times that unit's factor. */
  lemma ScaledBy(ds: string, u: char)
    requires ds != [] && AllDigits(ds)
    requires Multiplier(u).Some?
    ensures StringToNumber(ds + [u]) == Ok(Value(ds) * Multiplier(u).value)
  {
    NumberThenUnit(ds, [u]);
  }

  /**
   * The unit letters, either case: t, g, m and k scale by a power of 1000,
   * b means bytes, and no other character is a unit.
   */
  lemma MultiplierTable()
    ensures Multiplier('t') == Multiplier('T') == Some(TB) && TB == 1000000000000
    ensures Multiplier('g') == Multiplier('G') == Some(GB) && GB == 1000000000
    ensures Multiplier('m') == Multiplier('M') == Some(MB) && MB == 1000000
    ensures Multiplier('k') == Multiplier('K') == Some(KB) && KB == 1000
    ensures Multiplier('b') == Multiplier('B') == Some(1)
    ensures forall c :: Multiplier(c).Some? <==> ToLower(c) in "tgmkb"
  {
  }

  /** A unit of two or more characters, or a letter outside t, g, m, k, b, is fatal. */
  lemma BadUnitIsFatal(ds: string, unit: string)
    requires ds != [] && AllDigits(ds)
    requires unit != [] && !IsDigit(unit[0])
    requires |unit| >= 2 || ToLower(unit[0]) !in "tgmkb"
    ensures StringToNumber(ds + unit) == Err(UnknownUnit(unit))
  {
    NumberThenUnit(ds, unit);
  }

  /** Without a digit where strtol expects one, nothing is converted and the call is fatal. */
  lemma NoDigitsIsFatal(s: string)
    requires s == [] || (!IsDigit(s[0]) && !IsSpace(s[0]) && s[0] != '+' && s[0] != '-')
    ensures StringToNumber(s) == Err(NotANumber(s))
  {
  }

  lemma SignWithoutDigitsIsFatal(sign: char, rest: string)
    requires sign == '+' || sign == '-'
    requires rest == [] || !IsDigit(rest[0])
    ensures StringToNumber([sign] + rest) == Err(NotANumber([sign] + rest))
  {
    assert ([sign] + rest)[1..] == rest;
  }

  // ---------------------------------------------------------------------
  // clean_path

  predicate NoDoubleSlash(s: string)
  {
    forall i :: 0 <= i < |s| - 1 ==> !(s[i] == '/' && s[i + 1] == '/')
  }

  /** The characters of s other than '/', in order. */
  function Strip(s: string): string
  {
    if s == [] then []
    else Strip(s[..|s| - 1]) + (if s[|s| - 1] == '/' then [] else [s[|s| - 1]])
  }

  /**
   * The copy loop of clean_path: a '/' is copied unless the input character
   * before it was a '/' too; every other character is copied.
   */
  function Collapse(s: string): (r: string)
    ensures |r| <= |s|
  {
    if s == [] then []
    else
      var p := s[..|s| - 1];
      if s[|s| - 1] == '/' && p != [] && p[|p| - 1] == '/' then Collapse(p)
      else Collapse(p) + [s[|s| - 1]]
  }

  /** The collapsed path has no "//", keeps the non-slash characters in order and ends in the input's last character. */
  lemma {:induction false} CollapseShape(s: string)
    ensures NoDoubleSlash(Collapse(s))
    ensures Strip(Collapse(s)) == Strip(s)
    ensures s != [] ==> Collapse(s) != [] && Collapse(s)[|Collapse(s)| - 1] == s[|s| - 1]
  {
    if s != [] {
      var p := s[..|s| - 1];
      var c := s[|s| - 1];
      CollapseShape(p);
      var q := Collapse(p);
      if !(c == '/' && p != [] && p[|p| - 1] == '/') {
        var r := q + [c];
        assert r[..|r| - 1] == q;
        forall i | 0 <= i < |r| - 1 ensures !(r[i] == '/' && r[i + 1] == '/') {
          if i < |q| - 1 {
            assert r[i] == q[i] && r[i + 1] == q[i + 1];
          }
        }
      }
    }
  }

  /** A "//" anywhere collapses like a single '/': the second slash of a pair is dropped, the first is kept. */
  lemma {:induction false} DoubleSlashDropsOne(p: string, q: string)
    ensures Collapse(p + "//" + q) == Collapse(p + "/" + q)
    decreases |q|
  {
    var s, t := p + "//" + q, p + "/" + q;
    if q == [] {
      assert s[..|s| - 1] == t;
    } else {
      var q' := q[..|q| - 1];
      DoubleSlashDropsOne(p, q');
      assert s[..|s| - 1] == p + "//" + q';
      assert t[..|t| - 1] == p + "/" + q';
    }
  }

  /** n slashes in a row. */
  function Slashes(n: nat): string
  {
    seq(n, _ => '/')
  }

  /** A run of one or more slashes between two parts of a path leaves exactly one slash. */
  lemma {:induction false} RunCollapsesToOne(p: string, n: nat, q: string)
    requires n >= 1
    ensures Collapse(p + Slashes(n) + q) == Collapse(p + "/" + q)
  {
    if n > 1 {
      assert p + Slashes(n) + q == p + "//" + (Slashes(n - 2) + q);
      assert p + Slashes(n - 1) + q == p + "/" + (Slashes(n - 2) + q);
      DoubleSlashDropsOne(p, Slashes(n - 2) + q);
      RunCollapsesToOne(p, n - 1, q);
    } else {
      assert Slashes(1) == "/";
    }
  }

  /** clean_path as a value: the collapsed path without a trailing '/', unless that '/' is all there is. */
  function Cleaned(path: string): string
  {
    var b := Collapse(path);
    if |b| > 1 && b[|b| - 1] == '/' then b[..|b| - 1] else b
  }

  /**
   * clean_path: copy into a buffer one character at a time, skipping every '/'
   * that follows a '/', then cut a trailing '/' when the buffer holds two or
   * more characters.
   */
  method CleanPath(path: string) returns (r: string)
    ensures r == Cleaned(path)
  {
    var buf := new char[|path| + 1];
    var n := 0;
    var i := 0;
    while i < |path|
      invariant 0 <= n <= i <= |path|
      invariant buf[..n] == Collapse(path[..i])
      invariant 0 < i < |path| && path[i - 1] == '/' ==> path[i] != '/'
    {
      CollapseKeeps(path, i);
      buf[n] := path[i];
      assert buf[..n + 1] == buf[..n] + [path[i]];
      n, i := n + 1, i + 1;
      if path[i - 1] == '/' {
        i := SkipSlashes(path, i);
      }
    }
    assert path[..i] == path;
    if n > 1 && buf[n - 1] == '/' {
      n := n - 1;  // the terminator overwrites the trailing '/'
    }
    r := buf[..n];
  }

  /** The inner loop of clean_path: step over the '/'s that follow a copied '/'. */
  method SkipSlashes(path: string, i: nat) returns (k: nat)
    requires 0 < i <= |path| && path[i - 1] == '/'
    ensures i <= k <= |path| && path[k - 1] == '/' && (k < |path| ==> path[k] != '/')
    ensures Collapse(path[..k]) == Collapse(path[..i])
  {
    k := i;
    while k < |path| && path[k] == '/'
      invariant i <= k <= |path| && path[k - 1] == '/'
      invariant Collapse(path[..k]) == Collapse(path[..i])
    {
      CollapseSkips(path, k);
      k := k + 1;
    }
  }

  /** A character that is not a second '/' in a row is copied. */
  lemma CollapseKeeps(path: string, i: nat)
    requires i < |path| && !(0 < i && path[i - 1] == '/' && path[i] == '/')
    ensures Collapse(path[..i + 1]) == Collapse(path[..i]) + [path[i]]
  {
    assert path[..i + 1][..i] == path[..i];
  }

  /** A '/' right after a '/' is skipped. */
  lemma CollapseSkips(path: string, i: nat)
    requires 0 < i < |path| && path[i - 1] == '/' && path[i] == '/'
    ensures Collapse(path[..i + 1]) == Collapse(path[..i])
  {
    assert path[..i + 1][..i] == path[..i];
  }

  /** clean_path never lengthens a path and leaves no "//" behind. */
  lemma CleanedShape(path: string)
    ensures |Cleaned(path)| <= |path|
    ensures NoDoubleSlash(Cleaned(path))
    ensures |Cleaned(path)| >= 2 ==> Cleaned(path)[|Cleaned(path)| - 1] != '/'
    ensures Strip(Cleaned(path)) == Strip(path)
  {
    CollapseShape(path);
    var b := Collapse(path);
    if |b| > 1 && b[|b| - 1] == '/' {
      var c := b[..|b| - 1];
      assert b[..|b| - 1] == c;
    }
  }

  lemma {:induction false} CollapseFixesClean(s: string)
    requires NoDoubleSlash(s)
    ensures Collapse(s) == s
  {
    if s != [] {
      var p := s[..|s| - 1];
      assert NoDoubleSlash(p) by {
        forall i | 0 <= i < |p| - 1 ensures !(p[i] == '/' && p[i + 1] == '/') {
          assert p[i] == s[i] && p[i + 1] == s[i + 1];
        }
      }
      CollapseFixesClean(p);
      assert s == p + [s[|s| - 1]];
    }
  }

  /** Cleaning a cleaned path changes nothing. */
  lemma CleanedIdempotent(path: string)
    ensures Cleaned(Cleaned(path)) == Cleaned(path)
  {
    CleanedShape(path);
    CollapseFixesClean(Cleaned(path));
  }

  /** The edge cases of the trailing-slash rule: a lone '/' stays, and so does the empty path. */
  lemma CleanedEdgeCases()
    ensures Cleaned("") == ""
    ensures Cleaned("/") == "/"
    ensures Cleaned("//") == "/"
  {
    CollapseKeeps("//", 0);
    CollapseSkips("//", 1);
    assert "//"[..1] == "/" && "//"[..2] == "//" && "//"[..0] == [];
  }

  /** An example: doubled and trailing slashes go, the rest stays in order. */
  lemma CleanedExample()
    ensures Cleaned("a//b/") == "a/b"
  {
    var p := "a//b/";
    CollapseKeeps(p, 0);
    CollapseKeeps(p, 1);
    CollapseSkips(p, 2);
    CollapseKeeps(p, 3);
    CollapseKeeps(p, 4);
    assert p[..0] == [] && p[..5] == p;
    assert Collapse(p) == "a/b/";
  }
}
