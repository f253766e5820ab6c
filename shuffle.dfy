/*
 * shuffle: collect the playable files under a path, shuffle them and run
 * a command on each in turn. Modelled here: the selection rule of the
 * nftw callback, the argument vector build_command lays out and the
 * filename slot play_file fills, and main from the usage checks on.
 */
module ShuffleTool {
  import opened Wrappers
  import opened Shuffling
  import Arrays

  // ---------------------------------------------------------------------
  // collect_files

  /** One call of the callback: the path and whether nftw flagged it FTW_F. */
  datatype Entry = Entry(name: string, regular: bool)

  /** What the user asked for: -e extension and -m media type (each may be absent). */
  datatype Criteria = Criteria(extension: Option<string>, mediaType: Option<string>)

  /** The ways collect_files ends the program. */
  datatype SelectError = MagicFailed(name: string) | NoCriterion

  /** string_ends_with: the name ends in the extension. */
  predicate EndsWith(s: string, suffix: string)
  {
    |suffix| <= |s| && s[|s| - |suffix|..] == suffix
  }

  /** The name ends in the extension exactly when it is some prefix followed by the extension. */
  lemma EndsWithSplit(s: string, suffix: string)
    ensures EndsWith(s, suffix) <==> exists p :: p + suffix == s
  {
    if EndsWith(s, suffix) {
      var p := s[..|s| - |suffix|];
      assert p + suffix == s;
    }
    if exists p :: p + suffix == s {
      var p :| p + suffix == s;
      assert s[|s| - |suffix|..] == suffix;
    }
  }

  /**
   * strncmp(a, b, n) == 0 on C strings: the first n characters agree,
   * where a string that has ended only agrees with one that ends there too.
   */
  predicate SameUpTo(a: string, b: string, n: nat)
    decreases n
  {
    if n == 0 || (a == [] && b == []) then true
    else if a == [] || b == [] then false
    else a[0] == b[0] && SameUpTo(a[1..], b[1..], n - 1)
  }

  /** Comparing a media type with strncmp over its own length is a prefix test. */
  lemma {:induction false} SameUpToIsPrefix(m: string, t: string)
    ensures SameUpTo(m, t, |m|) <==> |m| <= |t| && t[..|m|] == m
    decreases |m|
  {
    if m != [] && t != [] {
      SameUpToIsPrefix(m[1..], t[1..]);
      assert m == [m[0]] + m[1..];
      if |m| <= |t| {
        assert t[..|m|] == [t[0]] + t[1..][..|m| - 1];
      }
    }
  }

  /**
   * The selection rule of collect_files: anything but a regular file is
   * ignored; an extension, when given, decides alone; otherwise the media
   * type libmagic reports must start with the one asked for, and a failing
   * lookup is fatal; with neither the call is fatal. magic stands for
   * magic_file, None for its NULL.
   */
  function Selects(e: Entry, c: Criteria, magic: string -> Option<string>): Result<bool, SelectError>
  {
    if !e.regular then Ok(false)
    else if c.extension.Some? then Ok(EndsWith(e.name, c.extension.value))
    else if c.mediaType.Some? then
      match magic(e.name)
      case None => Err(MagicFailed(e.name))
      case Some(t) => Ok(SameUpTo(c.mediaType.value, t, |c.mediaType.value|))
    else Err(NoCriterion)
  }

  /** The outcome of the rule for each kind of entry and each set of criteria. */
  lemma SelectsCases(e: Entry, c: Criteria, magic: string -> Option<string>)
    ensures !e.regular ==> Selects(e, c, magic) == Ok(false)
    ensures e.regular && c.extension.Some? ==>
      (Selects(e, c, magic) == Ok(true) <==> EndsWith(e.name, c.extension.value))
    ensures e.regular && c.extension.Some? ==> Selects(e, c, magic).Ok?
    ensures e.regular && c.extension.None? && c.mediaType.Some? ==>
      (Selects(e, c, magic) == Err(MagicFailed(e.name)) <==> magic(e.name).None?)
    ensures e.regular && c.extension.None? && c.mediaType.Some? && magic(e.name).Some? ==>
      var m, t := c.mediaType.value, magic(e.name).value;
      (Selects(e, c, magic) == Ok(true) <==> |m| <= |t| && t[..|m|] == m)
    ensures e.regular && c == Criteria(None, None) ==> Selects(e, c, magic) == Err(NoCriterion)
  {
    if e.regular && c.extension.None? && c.mediaType.Some? && magic(e.name).Some? {
      SameUpToIsPrefix(c.mediaType.value, magic(e.name).value);
    }
  }

  /** With an extension given, neither the media type nor libmagic plays a part. */
  lemma ExtensionDecidesAlone(e: Entry, ext: string, m1: Option<string>, m2: Option<string>,
                              magic1: string -> Option<string>, magic2: string -> Option<string>)
    ensures Selects(e, Criteria(Some(ext), m1), magic1) == Selects(e, Criteria(Some(ext), m2), magic2)
  {
  }

  /** collect_files: one entry; a playable file's name goes at the end of the array. */
  method CollectFile(files: Arrays.Array<string>, e: Entry, c: Criteria, magic: string -> Option<string>)
    returns (r: Result<bool, SelectError>)
    requires files.Valid()
    modifies files, files.items
    ensures r == Selects(e, c, magic)
    ensures files.Valid() && (files.items == old(files.items) || fresh(files.items))
    ensures files.Contents() == old(files.Contents()) + (if r == Ok(true) then [e.name] else [])
  {
    if !e.regular {
      return Ok(false);
    }
    var playable := false;
    if c.extension.Some? {
      playable := EndsWith(e.name, c.extension.value);
    } else if c.mediaType.Some? {
      var fileType := magic(e.name);
      if fileType.None? {
        return Err(MagicFailed(e.name));
      }
      playable := SameUpTo(c.mediaType.value, fileType.value, |c.mediaType.value|);
    } else {
      return Err(NoCriterion);
    }
    if playable {
      files.Add(e.name);
    }
    return Ok(playable);
  }

  /** The names the walk collects, in the order nftw reports them, or the first fatal error. */
  function Playlist(entries: seq<Entry>, c: Criteria, magic: string -> Option<string>): Result<seq<string>, SelectError>
  {
    if entries == [] then Ok([])
    else
      var e := entries[|entries| - 1];
      match Playlist(entries[..|entries| - 1], c, magic)
      case Err(err) => Err(err)
      case Ok(names) =>
        match Selects(e, c, magic)
        case Err(err) => Err(err)
        case Ok(playable) => Ok(if playable then names + [e.name] else names)
  }

  /** The walk succeeds exactly when the rule is fatal for no entry. */
  lemma {:induction false} PlaylistOk(entries: seq<Entry>, c: Criteria, magic: string -> Option<string>)
    ensures Playlist(entries, c, magic).Ok? <==> forall i :: 0 <= i < |entries| ==> Selects(entries[i], c, magic).Ok?
  {
    if entries != [] {
      var init := entries[..|entries| - 1];
      PlaylistOk(init, c, magic);
      assert forall i :: 0 <= i < |init| ==> init[i] == entries[i];
    }
  }

  /** Every name collected is that of an entry the rule selects, and every selected entry is collected. */
  lemma {:induction false} PlaylistExact(entries: seq<Entry>, c: Criteria, magic: string -> Option<string>)
    requires Playlist(entries, c, magic).Ok?
    ensures var names := Playlist(entries, c, magic).value;
      (forall k :: 0 <= k < |names| ==>
        exists i :: 0 <= i < |entries| && entries[i].name == names[k] && Selects(entries[i], c, magic) == Ok(true)) &&
      (forall i :: 0 <= i < |entries| && Selects(entries[i], c, magic) == Ok(true) ==> entries[i].name in names)
  {
    if entries != [] {
      var init := entries[..|entries| - 1];
      PlaylistExact(init, c, magic);
      assert forall i :: 0 <= i < |init| ==> init[i] == entries[i];
      var names := Playlist(entries, c, magic).value;
      var before := Playlist(init, c, magic).value;
      var last := |entries| - 1;
      forall k | 0 <= k < |names|
        ensures exists i :: 0 <= i < |entries| && entries[i].name == names[k] && Selects(entries[i], c, magic) == Ok(true)
      {
        if k < |before| {
          assert names[k] == before[k];
          var i :| 0 <= i < |init| && init[i].name == before[k] && Selects(init[i], c, magic) == Ok(true);
          assert entries[i] == init[i];
        } else {
          assert entries[last].name == names[k];
        }
      }
    }
  }

  /** The nftw call of main: collect_files for each entry in turn, stopping at the first fatal one. */
  method CollectFiles(files: Arrays.Array<string>, entries: seq<Entry>, c: Criteria, magic: string -> Option<string>)
    returns (failure: Option<SelectError>)
    requires files.Valid() && files.Contents() == []
    modifies files, files.items
    ensures files.Valid() && (files.items == old(files.items) || fresh(files.items))
    ensures failure.None? <==> Playlist(entries, c, magic).Ok?
    ensures failure.None? ==> files.Contents() == Playlist(entries, c, magic).value
    ensures failure.Some? ==> Playlist(entries, c, magic) == Err(failure.value)
  {
    var i := 0;
    assert entries[..0] == [];
    while i < |entries|
      invariant 0 <= i <= |entries|
      invariant files.Valid() && (files.items == old(files.items) || fresh(files.items))
      invariant Playlist(entries[..i], c, magic) == Ok(files.Contents())
    {
      ghost var before := files.Contents();
      var r := CollectFile(files, entries[i], c, magic);
      assert entries[..i + 1][..i] == entries[..i] && entries[..i + 1][i] == entries[i];
      if r.Err? {
        assert Playlist(entries[..i + 1], c, magic) == Err(r.error);
        PlaylistErrSticks(entries, i + 1, c, magic);
        return Some(r.error);
      }
      assert r == Ok(false) ==> files.Contents() == before by { assert before + [] == before; }
      i := i + 1;
    }
    assert entries[..i] == entries;
    return None;
  }

  /** Once the rule is fatal, the entries after it change nothing. */
  lemma {:induction false} PlaylistErrSticks(entries: seq<Entry>, n: nat, c: Criteria, magic: string -> Option<string>)
    requires n <= |entries| && Playlist(entries[..n], c, magic).Err?
    ensures Playlist(entries, c, magic) == Playlist(entries[..n], c, magic)
    decreases |entries| - n
  {
    if n < |entries| {
      assert entries[..n + 1][..n] == entries[..n];
      PlaylistErrSticks(entries, n + 1, c, magic);
    } else {
      assert entries[..n] == entries;
    }
  }

  // ---------------------------------------------------------------------
  // build_command and play_file

  /** The vector build_command lays out: the command words, then the filename slot and the terminator, both NULL. */
  function CommandLine(args: seq<string>, argend: nat): (cmd: seq<Option<string>>)
    requires argend <= |args|
  {
    seq(|args| - argend, k requires 0 <= k < |args| - argend => Some(args[argend + k])) + [None, None]
  }

  /** The layout: cmdlen + 2 slots, slot k holding word argend + k, and the last two NULL. */
  lemma CommandLineLayout(args: seq<string>, argend: nat)
    requires argend <= |args|
    ensures var cmd, cmdlen := CommandLine(args, argend), |args| - argend;
      |cmd| == cmdlen + 2 && cmd[cmdlen] == None && cmd[cmdlen + 1] == None &&
      forall k :: 0 <= k < cmdlen ==> cmd[k] == Some(args[argend + k])
  {
  }

  /**
   * build_command: allocate cmdlen + 2 slots for the words from argend on,
   * the filename and the terminating NULL; the filename goes at cmdlen.
   */
  method BuildCommand(args: seq<string>, argend: nat) returns (command: array<Option<string>>, filenameIndex: nat)
    requires argend <= |args|
    ensures fresh(command)
    ensures command[..] == CommandLine(args, argend) && filenameIndex == |args| - argend
  {
    var cmdlen := |args| - argend;
    command := new Option<string>[cmdlen + 2](_ => None);
    var i := argend;
    while i < |args|
      invariant argend <= i <= |args|
      invariant forall k :: 0 <= k < i - argend ==> command[k] == Some(args[argend + k])
      invariant command[cmdlen] == None && command[cmdlen + 1] == None
    {
      command[i - argend] := Some(args[i]);
      i := i + 1;
    }
    filenameIndex := cmdlen;
    command[filenameIndex] := None;
    command[filenameIndex + 1] := None;
  }

  /** What execvp reads of a vector: the strings before the first NULL. */
  function ExecArgs(cmd: seq<Option<string>>): seq<string>
  {
    if cmd == [] || cmd[0].None? then [] else [cmd[0].value] + ExecArgs(cmd[1..])
  }

  /**
   * play_file in the child: the forked process fills the filename slot of
   * its own copy of the vector and executes it. The parent's vector is
   * left as it was.
   */
  function ChildArgs(command: seq<Option<string>>, filenameIndex: nat, filename: string): seq<string>
    requires filenameIndex < |command|
  {
    ExecArgs(command[filenameIndex := Some(filename)])
  }

  /** The words before the filename slot reach execvp unchanged, then the filename, then the NULL stops the list. */
  lemma {:induction false} ExecArgsOfFilled(words: seq<string>, filename: string)
    ensures ExecArgs(seq(|words|, k requires 0 <= k < |words| => Some(words[k])) + [Some(filename), None]) == words + [filename]
    decreases |words|
  {
    var cmd := seq(|words|, k requires 0 <= k < |words| => Some(words[k])) + [Some(filename), None];
    if words == [] {
      assert cmd == [Some(filename), None];
      assert cmd[1..] == [None];
    } else {
      ExecArgsOfFilled(words[1..], filename);
      assert cmd[1..] == seq(|words[1..]|, k requires 0 <= k < |words[1..]| => Some(words[1..][k])) + [Some(filename), None];
      assert words == [words[0]] + words[1..];
    }
  }

  /** The player runs with the command words followed by the one file, whatever file was played before. */
  lemma PlayedCommand(args: seq<string>, argend: nat, filename: string)
    requires argend <= |args|
    ensures ChildArgs(CommandLine(args, argend), |args| - argend, filename) == args[argend..] + [filename]
  {
    var words := args[argend..];
    assert CommandLine(args, argend)[|args| - argend := Some(filename)] ==
      seq(|words|, k requires 0 <= k < |words| => Some(words[k])) + [Some(filename), None];
    ExecArgsOfFilled(words, filename);
  }

  // ---------------------------------------------------------------------
  // main

  /** How a run of shuffle ends. runs holds, in order, the argument vector of each player started. */
  datatype Outcome = Usage | Failed(error: SelectError) | NoFiles | Played(order: seq<string>, runs: seq<seq<string>>)

  /** The draws of random() array_shuffle makes over n items, one per index. */
  function Draws(random: nat -> nat, n: nat): (d: seq<nat>)
    ensures |d| == n
  {
    seq(n, i requires 0 <= i < n => random(i))
  }

  /**
   * main from the usage checks on. args is argv and optind where getopt
   * stopped; entries is what nftw reports under the starting path; random
   * gives the draw of random() at each step of array_shuffle; capacity
   * stands for INITIAL_ARRAY_CAPACITY.
   */
  method Run(c: Criteria, args: seq<string>, optind: nat, entries: seq<Entry>, magic: string -> Option<string>,
             random: nat -> nat, capacity: nat)
    returns (out: Outcome)
    requires capacity >= 2
    ensures out == Usage <==> c == Criteria(None, None) || optind >= |args|
    ensures out != Usage ==> match Playlist(entries, c, magic)
      case Err(e) => out == Failed(e)
      case Ok(names) =>
        if names == [] then out == NoFiles
        else
          out.Played? && out.order == Shuffled(names, Draws(random, |names|)) &&
          |out.order| == |out.runs| == |names| &&
          forall k :: 0 <= k < |names| ==> out.runs[k] == args[optind..] + [out.order[k]]
  {
    if c == Criteria(None, None) || optind >= |args| {
      return Usage;
    }
    var command, filenameIndex := BuildCommand(args, optind);
    var files := new Arrays.Array<string>(capacity);
    var failure := CollectFiles(files, entries, c, magic);
    if failure.Some? {
      return Failed(failure.value);
    }
    if files.size == 0 {
      return NoFiles;
    }
    out := ShuffleAndPlay(files, command, filenameIndex, random);
    forall k | 0 <= k < |out.runs|
      ensures out.runs[k] == args[optind..] + [out.order[k]]
    {
      PlayedCommand(args, optind, out.order[k]);
    }
  }

  /** The end of main: array_shuffle, then play_file for each file in the shuffled order. */
  method ShuffleAndPlay(files: Arrays.Array<string>, command: array<Option<string>>, filenameIndex: nat, random: nat -> nat)
    returns (out: Outcome)
    requires files.Valid() && files.size >= 1 && filenameIndex < command.Length
    modifies files.items
    ensures out.Played? && out.order == Shuffled(old(files.Contents()), Draws(random, files.size))
    ensures |out.order| == |out.runs| == files.size
    ensures forall k :: 0 <= k < files.size ==> out.runs[k] == ChildArgs(command[..], filenameIndex, out.order[k])
  {
    var cmd := command[..];
    files.Shuffle(Draws(random, files.size));
    var play := (name: string) => if filenameIndex < |cmd| then ChildArgs(cmd, filenameIndex, name) else [];
    var runs := files.ForEach(play);
    out := Played(files.items[..files.size], runs);
  }
}
