# tools: fit and shuffle, modelled in Dafny

This project models two programs of the `tools` repository and the small
library they share.

- `fit` spreads a set of files over as few disks of a fixed size as it can.
  It sorts the files by size, largest first, and places each file on the
  first disk with room for it. When no disk has room, it opens a new disk.
  It then prints the number of disks (`-n`), a report of every disk, or a
  tree of hard links with one directory per disk (`-l`).
- `shuffle` collects the playable files under a path, by extension or by
  libmagic media type. It shuffles them and runs a player command on each
  file in turn.
- The shared library (`utils.c`, `vector.c`, `array.c`) provides:
  - `string_to_number`, which reads sizes such as `650m`;
  - `clean_path`;
  - two growable pointer arrays with append, for-each and a Fisher-Yates
    shuffle.

Modules, one concern each:

| module | file | models |
|---|---|---|
| `Wrappers` | wrappers.dfy | `Option` and `Result` |
| `Decimal` | decimal.dfy | decimal digits as `printf` and `strtol` see them |
| `Utils` | utils.dfy | `string_to_number` (pure) and `clean_path` (a method with its loop) |
| `Shuffling` | shuffling.dfy | the Fisher-Yates pass of both shuffles, as a function of the draws of `random()` |
| `Vectors` | vector.dfy | `struct vector` as a class over an `array` |
| `Arrays` | array.dfy | `struct array` as a class over an `array` |
| `Packing` | packing.dfy | the first-fit placement of `fit`, as functions over disk contents, with its lemmas |
| `Fit` | fit.dfy | `struct disk`, `newdisk`, `addfile`, `byrevsize`, the `qsort` call and `fit` as methods over disk objects |
| `FitOutput` | fit_output.dfy | the count line, `printdisk` and `linkdisk` |
| `FitMain` | fit_main.dfy | the `collect` callback and `main` of `fit` |
| `ShuffleTool` | shuffle.dfy | `collect_files`, `build_command`, `play_file` and `main` of `shuffle` |

Three things about `fit` worth knowing when reading the model:

- **First fit, not best fit.** Sizes 600, 550, 420 and 30 on 1000-byte
  disks: after the first three, disk 1 has 400 bytes free and disk 2 has
  exactly 30. The file of 30 still goes to disk 1, the first disk with room,
  where best fit would have filled disk 2 (`Packing.FirstFitNotBestFit`).
- **Link targets.** `linkdisk` links each file to `dir/name`, with the name
  exactly as it was collected, and first creates the directories that name
  contains (`fit.c:196-201`).
- **The `-l` test.** `main` tests `ctx.lflag` once per disk. The model tests
  it once, before the loop (`FitMain.ShowDisks`). The flag does not change
  during the loop, so the output is the same.

Nothing external is called:
- The directory walk (`nftw` with `stat`) is given as a sequence of
  entries in walk order.
- libmagic is a function parameter, and so are the draws of `random()` and
  `number_to_string`.
- `link` and `makedirs` are described by the steps `linkdisk` would take.
- `fork`/`execvp` are described by the argument vector the child would
  execute.

## Model

| member | source | states |
|---|---|---|
| `Decimal.Render` | fit.c:355-356 | `printf "%lu"` of n: at least one digit, all digits, and no leading zero except for 0 itself; `Decimal.RenderValue` proves it reads back as n |
| `Decimal.RenderValue` | fit.c:355-356 | the decimal text `printf "%lu"` writes for n reads back as n |
| `Decimal.ZeroPad4` | fit.c:187 | `%04lu` of an id up to 9999 is four digits whose value is the id |
| `Utils.Strtol` | utils.c:114 | `strtol(str, &unit, 10)`: leading space, an optional sign and a digit run give the value and the rest as `unit`; no digits give no conversion. Its cases are proved in `Utils.StrtolDigits`, `Utils.MinusNumber` and `Utils.SignWithoutDigitsIsFatal` |
| `Utils.ScaleByUnit` | utils.c:118-137 | the unit after the number: none keeps it, one known letter scales it, anything else is "Unknown unit"; proved in `Utils.NumberThenUnit`, `Utils.ScaledBy` and `Utils.BadUnitIsFatal` |
| `Utils.StringToNumber` | utils.c:108-139 | `string_to_number`: "Can't convert" when `strtol` reads nothing, otherwise the number scaled by its unit; `Utils.NumberRoundTrip` proves it inverts the decimal rendering |
| `Utils.DigitRun` | utils.c:114 | the digit run `strtol` consumes is all digits and stops at the first non-digit |
| `Utils.DigitRunOfDigits` | utils.c:114 | `strtol` takes exactly the digits when a non-digit or the end follows |
| `Utils.StrtolDigits` | utils.c:114-116 | `strtol` of digits then a non-digit gives their value and leaves the rest as the unit |
| `Utils.NumberThenUnit` | utils.c:114-137 | `string_to_number` of digits then a rest yields three results: the plain number when nothing follows; the number times the multiplier for one known unit letter; otherwise an "Unknown unit" error carrying the rest |
| `Utils.NumberRoundTrip` | utils.c:114-119 | `string_to_number` of the decimal text of n is n |
| `Utils.NegativeRoundTrip` | utils.c:114-119 | `string_to_number` of `-` then the decimal text of n is -n |
| `Utils.MinusNumber` | utils.c:114 | `strtol` reads a leading minus sign as a negation |
| `Utils.ScaledBy` | utils.c:121-133 | one unit letter multiplies the number by its factor |
| `Utils.MultiplierTable` | utils.c:103-134 | t/g/m/k/b in either case give 10^12, 10^9, 10^6, 10^3 and 1, and no other character gives a unit |
| `Utils.BadUnitIsFatal` | utils.c:121-137 | a unit longer than one character, or an unknown letter, is the "Unknown unit" error |
| `Utils.NoDigitsIsFatal` | utils.c:114-116 | input that does not start with digits, space or sign is "Can't convert" |
| `Utils.SignWithoutDigitsIsFatal` | utils.c:114-116 | a sign with no digits after it is "Can't convert" |
| `Utils.Collapse` | utils.c:165-174 | what the copy loop writes into the buffer: never longer than the path; `Utils.CollapseShape` proves at most one slash per run, `Utils.RunCollapsesToOne` exactly one |
| `Utils.CollapseShape` | utils.c:165-174 | the copy loop leaves no two slashes in a row, keeps every other character in order and keeps the last character |
| `Utils.Cleaned` | utils.c:160-185 | `clean_path`: the collapsed path without its trailing slash unless it is just `/`; `Utils.CleanedShape` and `Utils.CleanedIdempotent` state what it guarantees |
| `Utils.CleanPath` | utils.c:160-185 | the loop over the path with its in-place slash skipping computes `Cleaned(path)` |
| `Utils.SkipSlashes` | utils.c:170-171 | skipping a slash run stops at the first non-slash without changing the collapsed prefix |
| `Utils.CleanedShape` | utils.c:160-185 | a cleaned path is no longer than the input, has no double slash, ends in `/` only when it is `/`, and keeps the non-slash characters in order |
| `Utils.CollapseFixesClean` | utils.c:165-174 | a path without double slashes is copied unchanged |
| `Utils.DoubleSlashDropsOne` | utils.c:165-174 | anywhere in a path, "//" is copied as a single '/': the first slash is kept and the second skipped |
| `Utils.RunCollapsesToOne` | utils.c:165-174 | a run of one or more slashes between any two parts of a path leaves exactly one slash; with `Utils.CollapseFixesClean` this determines the copy loop's output |
| `Utils.CleanedIdempotent` | utils.c:160-185 | cleaning a cleaned path changes nothing |
| `Utils.CleanedEdgeCases` | utils.c:176-179 | `""` stays `""`, `/` stays `/`, and `//` becomes `/` |
| `Utils.CleanedExample` | utils.c:160-185 | `a//b/` becomes `a/b` |
| `Vectors.Grow` | vector.c:50 | the new capacity `cap + (cap >> 1)`; `Vectors.GrowthMakesRoom` says when it makes room |
| `Vectors.GrowthMakesRoom` | vector.c:49-54 | growing by half again makes room exactly when the capacity is at least 2 |
| `Vectors.Vector.constructor` | vector.c:26-37 | a new vector is empty, with capacity `INITIAL_VECTOR_CAPACITY` (128) |
| `Vectors.Vector.Add` | vector.c:46-57 | the item is appended after the old contents; the capacity grows by half exactly when the vector was full |
| `Vectors.Vector.ForEach` | vector.c:59-66 | f is applied to every item, in order |
| `Vectors.Vector.Shuffle` | vector.c:68-89 | the contents become the Fisher-Yates pass of the draws over the old contents, a permutation of them |
| `Vectors.Vector.SwapItems` | vector.c:85-87 | the three assignments exchange items i and j and touch nothing else |
| `Arrays.Grow` | array.c:52 | the new capacity `cap * 3 / 2`; `Arrays.GrowthRulesAgree` proves it equals the vector rule |
| `Arrays.GrowthMakesRoom` | array.c:49-54 | `cap * 3 / 2` makes room exactly when the capacity is at least 2 |
| `Arrays.GrowthRulesAgree` | array.c:52 | `cap * 3 / 2` equals the vector's `cap + (cap >> 1)` |
| `Arrays.Array.constructor` | array.c:26-37 | a new array is empty with the initial capacity |
| `Arrays.Array.Add` | array.c:46-58 | the item is appended after the old contents; the capacity grows by half exactly when the array was full |
| `Arrays.Array.ForEach` | array.c:60-67 | f is applied to every item, in order |
| `Arrays.Array.Shuffle` | array.c:69-90 | the contents become the Fisher-Yates pass of the draws over the old contents, a permutation of them |
| `Arrays.Array.SwapItems` | array.c:86-88 | the three assignments exchange items i and j and touch nothing else |
| `Shuffling.Swap` | vector.c:85-87 | exchanging two items moves each to the other's place and keeps the rest |
| `Shuffling.Pick` | vector.c:83 | `random() % (i + 1)` is an index no larger than i |
| `Shuffling.Shuffled` | vector.c:79-88 | the Fisher-Yates pass from the last index down to 1, swapping with the index each draw picks; `Shuffling.ShuffledIsPermutation` proves it a permutation |
| `Shuffling.SwapPermutes` | vector.c:85-87 | a swap is a permutation |
| `Shuffling.ShuffleDownPermutes` | vector.c:79-88 | the pass keeps the length and is a permutation |
| `Shuffling.ShuffledIsPermutation` | vector.c:68-89 | the shuffle of any draws is a permutation of the items |
| `Packing.FirstFit` | fit.c:244-252 | the index of the disk the inner loop stops at, or the disk count when none has room; `Packing.FirstFitIsLowest` characterises it |
| `Packing.Place` | fit.c:242-262 | one turn of the outer loop on disk contents: add to the first disk with room, otherwise open a new disk holding the file; `Packing.PlaceIsFirstFit` states it |
| `Packing.PackFrom` | fit.c:237-263 | the outer loop from file i on; `Packing.PackFromPlacesEachOnce` and `Packing.PackFromBalanced` are its invariants |
| `Packing.Pack` | fit.c:230-264 | the disks `fit` makes from the sorted sizes; `Packing.PackPlacesEachOnce`, `Packing.PackBalanced` and `Packing.PackUsesAtMostOneDiskPerFile` state what it guarantees |
| `Packing.FirstFitFromIsLowest` | fit.c:244-252 | the scan from disk j stops at the first disk with room, or past the last |
| `Packing.FirstFitIsLowest` | fit.c:244-252 | the chosen disk has room for the file and no earlier disk has |
| `Packing.PlaceIsFirstFit` | fit.c:242-262 | the file goes to the lowest disk with room and no other disk changes; with no room anywhere, a new disk holding only the file is appended |
| `Packing.OccurrencesAddTo` | fit.c:248 | adding to an existing disk adds exactly one occurrence of the file |
| `Packing.OccurrencesPlace` | fit.c:242-262 | placing a file adds exactly one occurrence of it, wherever it goes |
| `Packing.OccurrencesNext` | fit.c:237-263 | after file m is placed, files 0..m occur once each and later files not at all |
| `Packing.PackFromPlacesEachOnce` | fit.c:237-263 | the loop from i on places every file exactly once |
| `Packing.PackPlacesEachOnce` | fit.c:230-264 | every file is on exactly one disk and nothing else is on any disk |
| `Packing.PackFromBalanced` | fit.c:237-263 | the loop keeps every disk's free space plus its load equal to the disk size, and free space never negative |
| `Packing.PackBalanced` | fit.c:230-264 | when every file fits a disk, every disk ends with free + load == disk size and free >= 0, so no disk overflows |
| `Packing.PlaceKeepsBalance` | fit.c:242-262 | placing a file that fits a disk keeps that balance |
| `Packing.AddToFirstKeepsBalance` | fit.c:123-127 | `addfile` on a disk with room keeps that balance |
| `Packing.PlaceIndicesBelow` | fit.c:242-262 | placing file f adds no file other than f |
| `Packing.PackFromIndicesBelow` | fit.c:237-263 | the loop puts only files of the input on the disks |
| `Packing.PackIndicesBelow` | fit.c:230-264 | every file on a disk is one of the input files |
| `Packing.PackFromGrowsByAtMostOne` | fit.c:237-263 | each turn opens at most one disk |
| `Packing.PackUsesAtMostOneDiskPerFile` | fit.c:230-264 | never more disks than files, and at least one disk when there is a file |
| `Packing.PackExample` | fit.c:230-264 | sizes 600, 500, 400, 300 on 1000-byte disks give disk 1 = {600, 400} with 0 free and disk 2 = {500, 300} with 200 free |
| `Packing.FirstFitNotBestFit` | fit.c:230-264 | sizes 600, 550, 420, 30 on 1000-byte disks: the 30 goes to disk 1 (400 free), not to disk 2, which has exactly 30 free |
| `Fit.Disk.constructor` | fit.c:98-101 | a new disk has no files, the whole size free and the id given |
| `Fit.Disk.AddFile` | fit.c:120-130 | the file is added exactly when `free - size >= 0`, and then the free space drops by the size; otherwise nothing changes |
| `Fit.DiskMaker.constructor` | fit.c:95 | the static id counter starts at 0 |
| `Fit.DiskMaker.NewDisk` | fit.c:92-104 | a fresh empty disk with the size free and the next id, which the counter then holds |
| `Fit.ToInt32` | fit.c:220 | the conversion of the `off_t` difference to `int` wraps modulo 2^32 into the `int` range and keeps values already in range |
| `Fit.ByRevSizeAsWritten` | fit.c:214-221 | `byrevsize` as written: the size difference cut to `int`; `Fit.ByRevSizeAsWrittenMisorders` and `Fit.ByRevSizeAsWrittenBelow2G` compare it with `Fit.ByRevSize` |
| `Fit.ByRevSize` | fit.c:214-221 | the intended comparator is positive exactly when a is smaller, and negative exactly when a is larger |
| `Fit.ByRevSizeAsWrittenMisorders` | fit.c:214-221 | as written, comparing a 100-byte file with a 2.2 GB file says the small one comes first |
| `Fit.ByRevSizeAsWrittenBelow2G` | fit.c:214-221 | as written, the comparator is right whenever the size difference fits in an `int` |
| `Fit.SortByRevSize` | fit.c:235 | the files are ordered by non-increasing size and are a permutation of the input; the rest of the array is untouched |
| `Fit.PrefixPermuted` | fit.c:235 | permuting the first n items of the array leaves the rest as it was |
| `Fit.InsertDown` | fit.c:235 | inserting item i extends the sorted prefix by one, as a permutation |
| `Fit.SiftDown` | fit.c:235 | item i moves down past every smaller item and stops below one at least as large |
| `Fit.InsertedInOrder` | fit.c:235 | an item placed where SiftDown leaves it yields a sorted prefix |
| `Fit.SwapDown` | fit.c:235 | two neighbours are exchanged, as a permutation |
| `Fit.AddToFirstFit` | fit.c:244-252 | the inner loop adds the file to the first disk with room, exactly when there is one, and otherwise leaves all disks unchanged |
| `Fit.PlaceFile` | fit.c:242-262 | one file is placed as first fit places it; `addfile` on a new disk fails exactly when the file is larger than a disk; the old disks stay in order and a new one is fresh |
| `Fit.AddedWithinCapacity` | fit.c:248-251 | when an existing disk takes the file, the file is no larger than a disk and no disk's free space exceeds the disk size |
| `Fit.OpenDisk` | fit.c:254-262 | a new disk holding only the file is appended, and it has the next id |
| `Fit.FitFiles` | fit.c:230-264 | the files end sorted by decreasing size as a permutation; the disks are the first-fit packing of that order, numbered from the counter; the loop fails only if some file exceeds a disk |
| `FitOutput.CountLine` | fit.c:355-356 | the `-n` line; `FitOutput.CountLineReadsBack` states its shape |
| `FitOutput.CountLineReadsBack` | fit.c:354-358 | the `-n` line (without its newline) is the count in decimal, then " disk", with "s" exactly when the count is above 1 |
| `FitOutput.CDiv` | fit.c:154 | C's `/`: the quotient's magnitude is the largest q with q * abs(b) <= abs(a), it is negative only when the signs differ, and it agrees with Dafny's division for non-negative operands |
| `FitOutput.Percent` | fit.c:154 | `(int) (free * 100 / disksize)`; `FitOutput.PercentInRange` bounds it and characterises 0 and 100 |
| `FitOutput.PercentInRange` | fit.c:154 | for 0 <= free <= disk size, the percentage is `free * 100 / disksize` rounded down, between 0 and 100, 100 exactly for an empty disk and 0 exactly when less than 1% is free |
| `FitOutput.Header` | fit.c:152-154 | the header `sprintf` writes; `FitOutput.HeaderReadsBack` proves it carries the disk id |
| `FitOutput.HeaderReadsBack` | fit.c:152-154 | the header starts with "Disk #", then the disk id in decimal, then a comma |
| `FitOutput.FileLine` | fit.c:166-167 | `printf "%10s %s\n"` of a file; `FitOutput.FileLineEndsWithName` proves it ends with the name |
| `FitOutput.PadLeft10` | fit.c:167 | `%10s` right-aligns in ten columns with spaces and never truncates |
| `FitOutput.FileLines` | fit.c:162-169 | one line per file of the disk |
| `FitOutput.DiskLines` | fit.c:144-172 | what `printdisk` prints for a disk; `FitOutput.DiskLinesLayout` states its layout |
| `FitOutput.DiskLinesLayout` | fit.c:144-172 | the report of a disk is a rule as long as the header, the header, the rule again, one line per file in disk order and an empty line |
| `FitOutput.FileLineEndsWithName` | fit.c:165-168 | each file line ends with a space and the collected name, after at least ten columns of size |
| `FitOutput.PrintDisk` | fit.c:144-172 | the lines printed for a disk are its report |
| `FitOutput.DiskDirectory` | fit.c:186-188 | `cleanpath` of `destdir/%04lu`; `FitOutput.DiskDirectoryShape` and `FitOutput.DiskDirectoriesDiffer` state its shape and that disks never share one |
| `FitOutput.PrintFiles` | fit.c:162-169 | the loop over the disk's files prints one file line each, in disk order |
| `FitOutput.CollapseAppendPlain` | fit.c:186-188 | cleaning a path followed by slash-free text cleans only the path |
| `FitOutput.DiskDirectoryShape` | fit.c:186-188 | the disk directory is the cleaned `destdir/`, then the id in four digits |
| `FitOutput.DiskDirectoriesDiffer` | fit.c:186-188 | different disks get different directories |
| `FitOutput.LastSlash` | fit.c:198 | `strrchr(destfile, '/')` finds the last slash |
| `FitOutput.LastSlashIs` | fit.c:198 | a slash with no slash after it is the one `strrchr` finds |
| `FitOutput.LinkFor` | fit.c:196-207 | one turn of the `linkdisk` loop: the directory made, the link made and the line printed; `FitOutput.LinkParent` states which |
| `FitOutput.LinkParent` | fit.c:196-201 | the link target is `path/name`; the directory made first is the disk directory, plus the name's own directory part when it has one |
| `FitOutput.PlainParent` | fit.c:198-200 | for a name without a slash, cutting at the last slash leaves the disk directory |
| `FitOutput.NestedParent` | fit.c:198-200 | for a name with a slash, cutting at the last slash leaves the disk directory joined with the name's directory part |
| `FitOutput.DiskLinks` | fit.c:190-209 | one link step per file of the disk |
| `FitOutput.LinkDisk` | fit.c:177-212 | a disk id above 9999 is the "Number too big" error; otherwise the link steps of every file under the disk directory, in order |
| `FitOutput.LinkFiles` | fit.c:190-209 | the loop over the disk's files yields their link steps in order |
| `FitMain.Decide` | fit.c:266-297 | gives the verdict on each walk entry. Entries below the first level are skipped without `-r`. Unreadable entries are fatal "Can't access". Directories are skipped, and other non-regular files are fatal. A regular file larger than a disk is fatal "Can never fit"; any other regular file is appended. Every condition is stated in both directions |
| `FitMain.Collector.constructor` | fit.c:336 | collection starts with an empty vector |
| `FitMain.Collector.Collect` | fit.c:266-297 | the callback acts on its verdict, and appends the file exactly when the verdict is append |
| `FitMain.Collected` | fit.c:336-339 | the walks with `collect`: the appended files in walk order, or the error of the first fatal entry; `FitMain.CollectedOk`, `FitMain.CollectedStopsAtFirstFatal` and `FitMain.CollectedFit` state what it guarantees |
| `FitMain.CollectedFit` | fit.c:288-294 | every collected file fits a disk |
| `FitMain.CollectedOk` | fit.c:338-339 | the walk succeeds exactly when no entry is fatal |
| `FitMain.CollectedStopsAtFirstFatal` | fit.c:276-291 | the run ends with the error of the first fatal entry |
| `FitMain.CollectAll` | fit.c:336-339 | the walk over all entries collects exactly the appended files in walk order, or stops with the first error |
| `FitMain.CollectedErrSticks` | fit.c:338-339 | once an entry is fatal, later entries change nothing |
| `FitMain.SizeArgs` | fit.c:326-327 | `ctx.disksize` after every `-s` is read in turn; `FitMain.SizeArgsFirstError` and `FitMain.SizeArgsLast` state the outcome |
| `FitMain.DiskSize` | fit.c:314-330 | the disk size the getopt loop leaves, from the `-s` arguments |
| `FitMain.SizeArgsLast` | fit.c:326-327 | when every `-s` argument converts, the last one sets the disk size; without `-s` it stays 0 |
| `FitMain.SizeArgsFirstError` | fit.c:326-327 | the first `-s` argument `string_to_number` refuses ends the program with its error, whatever follows |
| `FitMain.SizeArgsErrSticks` | fit.c:326-327 | once an `-s` argument is refused, later ones make no difference |
| `FitMain.BadSizeBeforeGoodIsFatal` | fit.c:326-327 | `-s x -s 1m` dies at `x` with "Can't convert" |
| `FitMain.ReadSizes` | fit.c:314-330 | the getopt loop's reading of the `-s` arguments one by one yields `SizeArgs` of them |
| `FitMain.Report` | fit.c:360-368 | what the printing loop prints for disks 1..n; `FitMain.PrintDisks` computes it |
| `FitMain.Links` | fit.c:360-368 | what the linking loop does for disks 1..n, disk i under directory i; `FitMain.LinkDisks` computes it |
| `FitMain.Run` | fit.c:306-379 | `main` from option parsing on. Its outcomes: a size error exactly when some `-s` argument is refused, and then the first refused one's; usage exactly when no path is given or the size is not positive; a collection error exactly when the walk meets a fatal entry, and then the first one's; "no files found" exactly when nothing was collected; otherwise, and only then, more than 9999 disks is fatal or the result is the count line, the report or the links of the first-fit packing of the files sorted by decreasing size |
| `FitMain.CollectAndFit` | fit.c:336-368 | collection, then the fit and its output, with each failure exactly when it applies |
| `FitMain.FitAndShow` | fit.c:344-368 | the first-fit packing of the collected files, sorted; then the 9999 limit, the count line, the report or the links |
| `FitMain.PermutedFit` | fit.c:254-259 | when every collected file fits a disk, so does every file of the sorted order, so `errx("addfile failed")` cannot fire |
| `FitMain.ShowDisks` | fit.c:360-368 | each disk is printed, or each disk is linked when `-l` was given |
| `FitMain.PrintDisks` | fit.c:360-368 | the disks' reports are printed in order |
| `FitMain.LinkDisks` | fit.c:360-368 | the disks' links are made in order, disk i under directory i |
| `ShuffleTool.EndsWith` | shuffle.c:85 | `string_ends_with(filename, extension)` as the suffix test; its C body is not part of this model (see "## Left out"); `ShuffleTool.EndsWithSplit` states it both ways |
| `ShuffleTool.EndsWithSplit` | shuffle.c:85 | a name ends in the extension exactly when it is some prefix followed by the extension |
| `ShuffleTool.SameUpToIsPrefix` | shuffle.c:93-94 | `strncmp` over the media type's length is zero exactly when the type libmagic reports starts with it |
| `ShuffleTool.Selects` | shuffle.c:79-96 | the selection rule of `collect_files`; `ShuffleTool.SelectsCases` states every case |
| `ShuffleTool.SelectsCases` | shuffle.c:79-96 | non-regular files are skipped. An extension decides alone, by suffix. Otherwise a failed libmagic lookup is fatal, and a successful one selects the file exactly when the reported type starts with the media type asked for. With neither criterion the run is fatal |
| `ShuffleTool.ExtensionDecidesAlone` | shuffle.c:83-85 | with an extension set, the media type and libmagic make no difference |
| `ShuffleTool.CollectFile` | shuffle.c:69-102 | the callback follows the selection rule and appends the name exactly when it selects the file |
| `ShuffleTool.Playlist` | shuffle.c:222-227 | the walk with `collect_files`: the selected names in walk order, or the first error; `ShuffleTool.PlaylistOk` and `ShuffleTool.PlaylistExact` state what it guarantees |
| `ShuffleTool.PlaylistOk` | shuffle.c:224-227 | the walk succeeds exactly when no entry is fatal |
| `ShuffleTool.PlaylistExact` | shuffle.c:69-102 | every collected name is a selected entry, and every selected entry is collected |
| `ShuffleTool.CollectFiles` | shuffle.c:222-227 | the walk collects exactly the selected names in walk order, or stops with the first error |
| `ShuffleTool.PlaylistErrSticks` | shuffle.c:89-96 | once an entry is fatal, later entries change nothing |
| `ShuffleTool.CommandLine` | shuffle.c:141-156 | the vector `build_command` fills; `ShuffleTool.CommandLineLayout` states its layout |
| `ShuffleTool.CommandLineLayout` | shuffle.c:141-156 | the command vector is the words after the options, then two NULLs |
| `ShuffleTool.BuildCommand` | shuffle.c:141-156 | the fresh vector holds that layout and the filename slot is the word count |
| `ShuffleTool.ExecArgs` | shuffle.c:119 | what `execvp` reads of a vector: the strings before the first NULL |
| `ShuffleTool.ChildArgs` | shuffle.c:118-119 | the child fills the filename slot of its copy and executes it; `ShuffleTool.PlayedCommand` proves what runs |
| `ShuffleTool.ExecArgsOfFilled` | shuffle.c:118-119 | `execvp` of the words, the filename and NULL runs exactly the words and the filename |
| `ShuffleTool.PlayedCommand` | shuffle.c:104-127 | each player runs the command words followed by the one file |
| `ShuffleTool.Run` | shuffle.c:165-252 | `main` from the usage checks on. Its outcomes: usage exactly when no criterion or no command is given; the first selection error; exit on an empty list; otherwise every selected file played once, in the shuffled order, each with the command words followed by that file |
| `ShuffleTool.ShuffleAndPlay` | shuffle.c:242-243 | the array is shuffled by the draws, then the player runs once per file in that order |

## Left out

- The directory walk (`nftw`, `stat`, `access`, symbolic-link handling):
  - both programs receive what the walk reports, as a sequence of entries in walk order;
  - their return values are ignored as in the code;
  - `shuffle`'s `-p` path resolution (`realpath`) and its failure are not part of this model.
- Line terminators: every line `fit` prints is a string without its trailing newline, and `printdisk`'s closing `putchar('\n')` is the empty line `""`.
- libmagic's `magic_open`, `magic_load`, `magic_close` and their failures are not modelled. `magic_file` is the parameter `magic`.
- `number_to_string` formats sizes in floating point. It is the parameter `humanSize`.
- `link` and `makedirs` and their failures are not performed:
  - `linkdisk` yields the steps it would take (parent directory, source, target, printed line);
  - a failing `link` would end the run at that step, leaving earlier links in place.
- `fork`, `execvp` and `wait`:
  - a run is the argument vector the child would execute;
  - a failing fork or exec is not modelled.
- `srandom`, `random()`, `time` and `getpid`: the draws of `random()` are a parameter. Seeding happens once per process, which the draws subsume.
- `getopt` is not modelled:
  - `fit`'s options arrive as a record holding every `-s` argument in order and the last `-l` argument;
  - `shuffle` receives the criteria and `optind`;
  - `-v` and every verbose `printf` of `shuffle` are left out, since they only write to the terminal.
- Freeing memory (`freefile`, `freedisk`, `vector_free`, `array_free`) is not modelled; Dafny has no explicit deallocation.
- `Utils.StringToNumber`: `strtol`'s saturation at `LONG_MAX` and the 64-bit overflow of `num * TB` are not modelled. Integers are unbounded here.
- `FitOutput.Percent`: the 64-bit overflow of `free * 100` is not modelled, only the `int` cast of the quotient.
- `Fit.SortByRevSize`: `qsort` is modelled as an insertion sort.
  - Its contract is sortedness and permutation only.
  - It makes no claim about the order of equal sizes, because `qsort` promises none.
- `ShuffleTool.EndsWith`: `string_ends_with` is declared in `utils.h:32`, but its body is not part of this model. It is modelled as the plain suffix test its name and its use describe.
- `Arrays.Array.constructor`: `INITIAL_ARRAY_CAPACITY` comes from `array.h`, which is not part of this model.
  - The capacity is a parameter and is required to be at least 2.
  - `ShuffleTool.Run` takes the same parameter.
- `Vectors.Vector.Shuffle` and `Arrays.Array.Shuffle` require at least one item. For an empty container, `size - 1` wraps around in `size_t` and the loop would index outside the items.
  - `shuffle` calls `array_shuffle` only after exiting on an empty list.
  - `vector_shuffle` has no caller in the modelled programs.
- `fit.c` calls `cleanpath` and `makedirs`, but `utils.h` declares `clean_path` and `make_dirs`. The model takes `cleanpath` to be `clean_path` of `utils.c`.

## Findings

| source | as written | input that shows it | evidently intended | confidence | as-written member | corrected member |
|---|---|---|---|---|---|---|
| fit.c:214-221 | `byrevsize` returns `b->size - a->size`, an `off_t` difference converted to `int`. A difference of 2^31 or more wraps and can change sign. | two files of 100 bytes and 2 200 000 000 bytes: the difference wraps to a negative `int`, so `qsort` puts the small file first | a comparator that only compares the sizes, so that files are sorted by decreasing size whatever their sizes | not executed | `Fit.ByRevSizeAsWrittenMisorders` | `Fit.ByRevSize` |

The model sorts with the corrected comparator: `Fit.SortByRevSize` proves its
result is sorted by decreasing size for all sizes.
`Fit.ByRevSizeAsWrittenBelow2G` shows the comparator as written agrees with
it whenever the difference fits in an `int`.
