# Ion Torrent alignment driver, file utilities and data-management helpers in Dafny

This project models four pieces of the Torrent Suite.

- **The alignment QC driver (`alignmentQC.py`).** It validates the options and classifies the read file by suffix. It picks the genome index version (given explicitly, or probed from tmap), then searches a colon-separated list of base directories for the reference. Finally it assembles the shell pipeline that aligns with tmap or bowtie2 and sorts or redirects into a BAM file. It also decides the follow-up commands: duplicate marking with its JSON report, and indexing.
- **Path and archive utilities (`files.py`).** These cover:
  - the common directory prefix of a list of names and the names relative to it;
  - the archive-name validity check (mixed absolute and relative names are rejected, and `__MACOSX` entries are dropped);
  - the name filtering used when unzipping;
  - the search for the nearest mount point above a path;
  - the inode triple;
  - the extension renaming map.
- **The fileserver seeding script (`add_fileserver.py`).** It makes sure a "Home" location exists, then adds a default file server linked to the first location whose name contains "Home". Each step does nothing if a row whose name is a *substring* of the requested name already exists.
- **Two helpers of the data-management page (`data_management.js`).** `show_ack` decides whether a row offers the acknowledge action. `_get_query_string` flattens a filter widget's value into a query-string parameter.

Modules:

- `Results`: the `Option` and `Result` datatypes.
- `Text`: the Python string operations the scripts use: `endswith`, `s[:-k]`, the `in` substring test, `split`, `join`, `strip` and `%d`.
- `PosixPath`: `dirname`, `basename`, `isabs` and the chain of ancestors that `is_mounted` walks.
- `AlignmentQC`, `Files`, `FileServerSeeding` and `DataManagement`: one module per source file.

The outside world enters as parameters:

- `os.path.exists` is a function `pathExists: string -> bool`.
- The output of `tmap index --version` is a string.
- The `/bin/mountpoint` probe is a function from a path to an exit status, or to "raised".
- The picard jar path is a string.
- The statvfs inode counts are two integers.
- The database tables are sequences held in a `Database` object; `save()` appends a row.

The command line is a sequence of typed fragments, one per assignment to `command` while the pipeline is built (the opening `command = ...` and each `command += ...`). `RenderAll` turns them into the exact string. `ProducedFile` reads from the fragments which BAM file the pipeline leaves behind. `samtools sort` takes its target as an output prefix and adds ".bam", while the plain redirect writes the target itself.

Behaviour of the code that the model keeps on purpose:

- **`.sff` names lose six characters.** The driver strips six characters from a `.sff` read file, two more than the suffix. `AlignmentQC.SffDropsSixCharacters` states the resulting base.
- **Substring tests in the seeding script.** The existence tests compare names by substring, so a location named "Ho" blocks the creation of "Home", and then no file server is created (`FileServerSeeding.SubstringBlocksHome`).
- **Unknown aligner without an explicit version.** `getIndexVersion` returns `None`, and `findReference` fails when it concatenates that with the genome name. The model reports this as the `NoIndexVersion` error, as `AlignmentQC.ResolveReference` states. The aligner check itself comes later.
- **Short names in `get_common_prefix`.** A name no longer than the common prefix makes `f[start]` raise `IndexError`. The model reports this as `IndexError`. `all()` stops at the first name whose character is not '/', so the error arises only when every earlier name has a '/' there. `Files.AllSlashAt` and `Files.GetCommonPrefix` state this condition, and `Files.EmptyNameAfterMiss` gives an example.

## Model

| member | source | states |
|---|---|---|
| Text.DropLast | pipeline/bin/alignmentQC.py:256 | `s[:-k]` removes exactly the last k characters when 0 < k <= len, and is empty otherwise |
| Text.EndsWith | pipeline/bin/alignmentQC.py:254-263 | `str.endswith`: the empty suffix always matches, and a match means the string is some prefix followed by the suffix |
| Text.EndsWithAppend | pipeline/bin/alignmentQC.py:254-263 | any string followed by a suffix ends with that suffix |
| Text.Split | pipeline/bin/alignmentQC.py:61 | splitting at ':' always gives at least one piece, and no piece contains the separator |
| Text.JoinSplit | pipeline/bin/alignmentQC.py:61 | joining the pieces of a split with the separator gives the original string back |
| Text.Join | dbReports/iondb/media/resources/scripts/data/data_management.js:4 | `join` starts with the first piece; with Split it forms the inverse pair pinned by JoinSplit and SplitJoin |
| Text.SplitLength | pipeline/bin/alignmentQC.py:74-76 | a search path has one more base than it has ':' characters |
| Text.SplitJoin | dbReports/iondb/media/resources/scripts/data/data_management.js:4 | splitting a join of non-empty, separator-free piece lists gives the list back |
| Text.Contains | dbReports/iondb/bin/add_fileserver.py:13 | Python's `in`: a prefix is contained, and a contained string is never longer than the one containing it |
| Text.ContainsIffWindow | dbReports/iondb/bin/add_fileserver.py:13 | Python's `a in b` holds iff some window of b equals a |
| Text.Strip | pipeline/bin/alignmentQC.py:29 | `strip()` never lengthens and leaves no whitespace at either end |
| Text.StripWindow | pipeline/bin/alignmentQC.py:29 | the stripped text is a contiguous window of the input with only whitespace outside it |
| Text.StripIdempotent | pipeline/bin/alignmentQC.py:29 | stripping twice equals stripping once |
| Text.NatToDecimal | pipeline/bin/alignmentQC.py:298 | `%d` of a natural number is a non-empty string of decimal digits, with no leading zero, and is "0" exactly for zero |
| Text.DecimalRoundTrip | pipeline/bin/alignmentQC.py:298 | reading back the `%d` digits gives the number |
| PosixPath.Dirname | dbReports/iondb/utils/files.py:137 | `dirname` is a prefix of its argument |
| PosixPath.Basename | dbReports/iondb/utils/files.py:168 | `basename` is a suffix of the path containing no '/', and whatever precedes it ends with '/' |
| PosixPath.IsAbs | dbReports/iondb/utils/files.py:148 | a path is absolute iff it starts with '/' |
| PosixPath.BasenameEmpty | dbReports/iondb/utils/files.py:168 | a basename is empty iff the path is empty or ends with '/' |
| PosixPath.DirnameFixpoint | dbReports/iondb/utils/files.py:194-197 | the only paths that are their own dirname are "" and all-slash paths |
| PosixPath.DirnameNormal | dbReports/iondb/utils/files.py:197 | the dirname of a normalised absolute path other than "/" is normalised, strictly shorter, and ends where p has a '/' |
| PosixPath.Ancestors | dbReports/iondb/utils/files.py:194-197 | the paths `is_mounted` visits: the path, then each dirname, strictly shrinking, all prefixes of the path, stopping before "/" |
| PosixPath.AncestorOfStep | dbReports/iondb/utils/files.py:194-197 | one step of the walk: the ancestors of p are p itself and the ancestors of its dirname |
| PosixPath.AncestorsAreSlashPrefixes | dbReports/iondb/utils/files.py:194-197 | the walk visits exactly the path and each of its proper prefixes that ends just before a '/', other than the root |
| AlignmentQC.ChosenIndexVersion | pipeline/bin/alignmentQC.py:277-280 | a version is chosen iff one is given or the aligner is tmap or bowtie2; a given version is used verbatim, and bowtie2 alone gives "bowtie2" |
| AlignmentQC.IndexVersion | pipeline/bin/alignmentQC.py:25-33 | a version exists iff the aligner is tmap or bowtie2; tmap's is the probe output without surrounding whitespace |
| AlignmentQC.ExplicitVersionWins | pipeline/bin/alignmentQC.py:277-278 | an explicit format version is used verbatim, and the probe output cannot affect it |
| AlignmentQC.ProbedVersion | pipeline/bin/alignmentQC.py:25-33 | without an explicit version: tmap gives the stripped probe output, bowtie2 gives "bowtie2", any other aligner gives none |
| AlignmentQC.Candidates | pipeline/bin/alignmentQC.py:61-62 | one candidate directory per base, in order |
| AlignmentQC.SearchCandidates | pipeline/bin/alignmentQC.py:58-62 | one directory per ':'-separated base of the genome path, in order, each `base/indexVersion/genome` |
| AlignmentQC.FastaPath | pipeline/bin/alignmentQC.py:79-82 | the FASTA path is `dir/genome` followed by `.fasta` for tmap and by nothing for bowtie2 |
| AlignmentQC.FirstExisting | pipeline/bin/alignmentQC.py:61-65 | the index of the first existing candidate, and no earlier candidate exists; None iff none exists |
| AlignmentQC.ResolveReference | pipeline/bin/alignmentQC.py:45-95 | the configuration errors in order: an empty search path, then an empty genome, then a missing index version (`NoIndexVersion`, before any lookup or aligner check); on success: refInfo and infoFile are "", the directory is an existing candidate, the FASTA path depends on the aligner, and for tmap the FASTA exists |
| AlignmentQC.FindReference | pipeline/bin/alignmentQC.py:45-95 | the loop with early exit returns exactly the specified resolution, including the error listing every searched candidate |
| AlignmentQC.FirstMatchWins | pipeline/bin/alignmentQC.py:58-65 | the result is `base/version/genome` for the first base in search-path order whose directory exists |
| AlignmentQC.FirstExistingIgnoresLater | pipeline/bin/alignmentQC.py:61-65 | candidates after the first existing one are never consulted |
| AlignmentQC.ResolutionIgnoresLaterBases | pipeline/bin/alignmentQC.py:61-65 | changing the filesystem only after the chosen base does not change the resolution |
| AlignmentQC.NotFoundListsEveryBase | pipeline/bin/alignmentQC.py:67-77 | when nothing exists the run fails, listing exactly one candidate per ':'-separated base, in order |
| AlignmentQC.FastaMissingIsDistinct | pipeline/bin/alignmentQC.py:87-93 | for tmap, an existing directory without `genome.fasta` gives its own error naming that file |
| AlignmentQC.ConfigurationCheckedFirst | pipeline/bin/alignmentQC.py:47-56 | an empty search path or genome is rejected before any candidate is tested, whatever the filesystem |
| AlignmentQC.ClassifyReads | pipeline/bin/alignmentQC.py:254-271 | accepted iff the name ends with one of the four suffixes; the base is the name minus the suffix, except for .sff, which drops six characters |
| AlignmentQC.ClassifyRoundTrip | pipeline/bin/alignmentQC.py:254-265 | classifying `base + suffix` gives back the suffix's type and, except for .sff, the base |
| AlignmentQC.SffDropsSixCharacters | pipeline/bin/alignmentQC.py:260-262 | an .sff base is the name minus six characters, never the name minus ".sff" |
| AlignmentQC.Render | pipeline/bin/alignmentQC.py:296-349 | every fragment adds text, and every fragment appended with `+=` (all but the stage openers and ".bam") starts with a space, so fragments never run together |
| AlignmentQC.RenderAll | pipeline/bin/alignmentQC.py:296-349 | the command is at least one character per fragment and starts with the first fragment's text |
| AlignmentQC.RenderAllAppend | pipeline/bin/alignmentQC.py:296-349 | rendering a concatenation of fragment lists concatenates their texts, so each `+=` extends the string by exactly its fragment |
| AlignmentQC.TmapSwitches | pipeline/bin/alignmentQC.py:307-312 | `--bidirectional`, `--do-realign` and the read group appear iff their options are set |
| AlignmentQC.AppendTmapSwitches | pipeline/bin/alignmentQC.py:307-312 | the three conditional `+=` lines append exactly the switches of TmapSwitches, in order, after the command built so far |
| AlignmentQC.TmapPieces | pipeline/bin/alignmentQC.py:296-318 | the tmap invocation has ten fixed fragments plus one per optional switch set |
| AlignmentQC.TmapCommand | pipeline/bin/alignmentQC.py:296-318 | appending the tmap fragments one assignment at a time, with the optional switches in source order, yields exactly `TmapPieces` |
| AlignmentQC.TmapIndexOnce | pipeline/bin/alignmentQC.py:299-302 | only the third tmap fragment is `-k` or `-f` |
| AlignmentQC.TmapPiecesShape | pipeline/bin/alignmentQC.py:296-318 | the tmap command starts `tmap mapall -n <threads>`, names exactly one of the server key or the FASTA, includes the reads, and ends with the extra options and the log redirect |
| AlignmentQC.Bowtie2Pieces | pipeline/bin/alignmentQC.py:319-331 | three stages: SamToFastq, run from the given picard jar, of the reads into the FIFO `bamBase.fastqfifo`, bowtie2 on the same FIFO with the reference and thread count, then SAM to BAM |
| AlignmentQC.AlignerCommand | pipeline/bin/alignmentQC.py:296-334 | the step-by-step build gives the tmap command of that shape, or bowtie2's three-stage pipe, or the unknown-aligner error |
| AlignmentQC.OutputPieces | pipeline/bin/alignmentQC.py:336-349 | three fragments when sorting is skipped, two otherwise; sorting iff not skipped, ".bam" iff skipped, and the target is `bamBase.tmp` with duplicate marking, else `bamBase` |
| AlignmentQC.OutputPiecesProduce | pipeline/bin/alignmentQC.py:336-349 | sorting iff not skipped, ".bam" appended iff skipped; the file left behind is `bamBase.tmp.bam` with duplicate marking, else `bamBase.bam` |
| AlignmentQC.AppendOutput | pipeline/bin/alignmentQC.py:336-349 | the output stage is appended after the aligner stage, and the pipeline leaves the file stated above |
| AlignmentQC.OutBase | pipeline/bin/alignmentQC.py:288-290 | the output base is `--out-base-name` when given, else the read file's base; empty only when both are |
| AlignmentQC.JsonName | pipeline/bin/alignmentQC.py:366-371 | the report name is "BamDuplicates", a '.', then the output base (nothing for "rawlib") and ".json" |
| AlignmentQC.JsonNameRawlib | pipeline/bin/alignmentQC.py:367-371 | the report is `BamDuplicates.json` iff the output base is "rawlib" |
| AlignmentQC.DedupCommand | pipeline/bin/alignmentQC.py:365-373 | the BamDuplicates command is `BamDuplicates -i <input> -o <bam file> -j <json name>`: each of the three segments is fixed at its position, and the length is fixed too |
| AlignmentQC.FollowUps | pipeline/bin/alignmentQC.py:365-383 | two commands with duplicate marking (BamDuplicates, then removal of `bamBase.tmp.bam`) plus `samtools index bamBase.bam` when indexing a sorted file, in that order |
| AlignmentQC.PlanAlignment | pipeline/bin/alignmentQC.py:244-349 | errors in the driver's order (threads, input, suffix, reference); on success: the read type, `bamBase = output_dir/out_base` (the read base by default), the command string and the file it produces, the follow-ups, and the FIFO `bamBase.fastqfifo` exactly when the aligner is bowtie2 (none otherwise) |
| AlignmentQC.ProducedFileFeedsFollowUps | pipeline/bin/alignmentQC.py:365-383 | the file the pipeline leaves is BamDuplicates' input, or the one indexed |
| Files.Lcp | dbReports/iondb/utils/files.py:138 | a common prefix of both strings that cannot be extended |
| Files.LcpLongest | dbReports/iondb/utils/files.py:138 | every common prefix of two strings is a prefix of theirs |
| Files.CommonPrefix | dbReports/iondb/utils/files.py:138 | `commonprefix` is a prefix of every directory |
| Files.CommonPrefixLongest | dbReports/iondb/utils/files.py:138 | every common prefix of the directories is a prefix of `commonprefix`'s result |
| Files.AllSlashAt | dbReports/iondb/utils/files.py:140 | true iff every name has '/' at the position; `IndexError` exactly when some name is too short and every name before it has '/' there, as the short-circuiting `all()` gives |
| Files.Relativise | dbReports/iondb/utils/files.py:139-142 | the relative names keep order and count, and each is its name from the start position on |
| Files.PrefixWithinNames | dbReports/iondb/utils/files.py:139-140 | a common prefix of the dirnames fits in every name, and only "" or all-slash names have exactly its length |
| Files.GetCommonPrefix | dbReports/iondb/utils/files.py:122-143 | `("", [])` for empty or all-empty input; otherwise the prefix of all dirnames, and names cut after it and one more '/' iff every name has '/' there; an `IndexError` exactly when a name no longer than the prefix comes before any name without '/' at that position, and then only with an empty or all-slash name |
| Files.EmptyNameAfterMiss | dbReports/iondb/utils/files.py:137-143 | `get_common_prefix(["ab/c", ""])` returns `("", ["ab/c", ""])`: the empty name comes after `all()` has stopped, so nothing raises |
| Files.GetCommonPrefixLongest | dbReports/iondb/utils/files.py:137-138 | the prefix is the longest character-wise common prefix of the dirnames, not cut at a component boundary |
| Files.DropBlacklisted | dbReports/iondb/utils/files.py:147-151 | keeps exactly the names not containing `__MACOSX` |
| Files.DropBlacklistedAppend | dbReports/iondb/utils/files.py:151 | the filter keeps order: filtering a concatenation is concatenating the filtered parts |
| Files.ValidFiles | dbReports/iondb/utils/files.py:146-151 | an error iff both an absolute and a relative name occur; otherwise the input in its order with the names containing `__MACOSX` dropped (`DropBlacklisted`, whose order is fixed by `DropBlacklistedAppend`) |
| Files.WithBasename | dbReports/iondb/utils/files.py:168 | keeps exactly the names with a non-empty basename, never lengthens the list, and on one name keeps it iff its basename is non-empty |
| Files.WithBasenameAppend | dbReports/iondb/utils/files.py:168 | the filter keeps order: filtering a concatenation is concatenating the filtered parts |
| Files.UnzipNames | dbReports/iondb/utils/files.py:162-179 | succeeds iff validation and prefix stripping do; returns exactly the relative names not ending in '/', in archive order (the basename filter applied to the stripped names) |
| Files.FirstMount | dbReports/iondb/utils/files.py:190-200 | "" or the first path whose probe exits with 0; "" when a probe raises first or no path is a mount point |
| Files.IsMounted | dbReports/iondb/utils/files.py:190-200 | the dirname walk returns the first mount point above the path, or "" |
| Files.MountNeverRoot | dbReports/iondb/utils/files.py:194-197 | the result is never "/", and a non-empty result is the path itself or a proper prefix of it ending just before a '/' |
| Files.WalkAsWritten | dbReports/iondb/utils/files.py:193-200 | the loop as written, run for a bounded number of steps: whatever it returns is "" or a path the probe reports as a mount point |
| Files.WalkAsWrittenAgrees | dbReports/iondb/utils/files.py:193-200 | on a normalised absolute path, given more steps than its length, the loop as written returns what `FirstMount` over the ancestors gives |
| Files.DoubleSlashIsFixpoint | dbReports/iondb/utils/files.py:194-197 | "//" is its own dirname and is not "/", and "//x" has dirname "//" |
| Files.DoubleSlashNeverEnds | dbReports/iondb/utils/files.py:194-197 | from "//" with a probe that never succeeds, the loop as written never returns |
| Files.DoubleSlashPathMisbehaves | dbReports/iondb/utils/files.py:193-200 | from "//x" the loop never returns when nothing is mounted, and returns the root "//" when the root is a mount point, where "/x" gives "" |
| Files.OneLeadingSlash | dbReports/iondb/utils/files.py:193 | an `abspath` result with a doubled leading slash, reduced to its single-slash form |
| Files.IsMountedAnyRoot | dbReports/iondb/utils/files.py:190-200 | the corrected loop stops at the root however it is spelt: the first mount point above the path, never an all-slash root |
| Files.Inodes | dbReports/iondb/utils/files.py:203-208 | the triple is (total, used, available) with used + available = total |
| Files.RenamedName | dbReports/iondb/utils/files.py:226-227 | the new name ends with the new extension and replaces exactly the old one |
| Files.RenameRoundTrip | dbReports/iondb/utils/files.py:226-227 | renaming back with the extensions swapped restores the name |
| Files.RenamePlan | dbReports/iondb/utils/files.py:211-228 | pairs every name ending with the old extension with its renamed form, and no other name |
| DataManagement.Truthy | dbReports/iondb/media/resources/scripts/data/data_management.js:2 | falsy exactly for undefined, null, false, 0 and "" |
| DataManagement.LooseEqualsText | dbReports/iondb/media/resources/scripts/data/data_management.js:58-60 | only a string or an array can equal a letter-initial literal, and it does exactly when its string form is the literal |
| DataManagement.ShowAck | dbReports/iondb/media/resources/scripts/data/data_management.js:57-64 | never offered when `sigproc_keep == 'true'`; for any other keep value (undefined, null, a boolean, a number, an array) and a string state, offered iff the state is Notified, Selected or Acknowledged; only offered for a string (or array) state |
| DataManagement.ShowAckOnStrings | dbReports/iondb/media/resources/scripts/data/data_management.js:57-64 | for string fields: offered iff the keep flag is not "true" and the state is Notified, Selected or Acknowledged |
| DataManagement.KeepHidesAck | dbReports/iondb/media/resources/scripts/data/data_management.js:58-59 | keep "true" hides the action whatever the state |
| DataManagement.BooleanKeepDoesNotHide | dbReports/iondb/media/resources/scripts/data/data_management.js:58-62 | a boolean `true` keep flag does not compare equal to 'true', so the state alone decides |
| DataManagement.SingletonArrayKeepHides | dbReports/iondb/media/resources/scripts/data/data_management.js:58-59 | an array `["true"]` compares equal to 'true' and hides the action |
| DataManagement.ElementStrings | dbReports/iondb/media/resources/scripts/data/data_management.js:4 | one text per array element |
| DataManagement.ToJsString | dbReports/iondb/media/resources/scripts/data/data_management.js:4 | ECMAScript ToString: a string is itself, an empty array is "", and a one-element array is its element's string form ("" for null or undefined) |
| DataManagement.GetQueryString | dbReports/iondb/media/resources/scripts/data/data_management.js:1-7 | falsy values become "", arrays their comma-joined elements, and other values pass through; the result is never an array |
| DataManagement.GetQueryStringIdempotent | dbReports/iondb/media/resources/scripts/data/data_management.js:1-7 | flattening a flattened value changes nothing |
| DataManagement.QueryStringSplitsBack | dbReports/iondb/media/resources/scripts/data/data_management.js:3-5 | a selection of comma-free strings is recovered by splitting the flattened value at "," |
| FileServerSeeding.LocationCovered | dbReports/iondb/bin/add_fileserver.py:13 | a location with exactly the requested name, or with an empty name, covers it; an empty table covers nothing |
| FileServerSeeding.ServerCovered | dbReports/iondb/bin/add_fileserver.py:29 | a server with exactly the requested name, or with an empty name, covers it; an empty table covers nothing |
| FileServerSeeding.AddLocationSpec | dbReports/iondb/bin/add_fileserver.py:8-20 | unchanged if some location name is a substring of the string; otherwise exactly one row is appended; afterwards the string is always covered |
| FileServerSeeding.AddLocationIdempotent | dbReports/iondb/bin/add_fileserver.py:8-20 | a second `add_location` with the same string is a no-op |
| FileServerSeeding.FirstHomeFrom | dbReports/iondb/bin/add_fileserver.py:34-36 | the first location, in table order, whose name contains "Home", or none |
| FileServerSeeding.AddFileServerSpec | dbReports/iondb/bin/add_fileserver.py:23-43 | unchanged if a server name is a substring of the name or no "Home" location exists; otherwise one row (name, "", directory, first Home) is appended; rows stay linked to existing locations |
| FileServerSeeding.AddFileServerIdempotent | dbReports/iondb/bin/add_fileserver.py:23-43 | a second `add_fileserver` with the same name is a no-op |
| FileServerSeeding.SeededSpec | dbReports/iondb/bin/add_fileserver.py:62-74 | afterwards "Home" is covered, each table gains at most one row, existing rows are unchanged, and links stay valid |
| FileServerSeeding.SeedIdempotent | dbReports/iondb/bin/add_fileserver.py:62-74 | running the script twice equals running it once |
| FileServerSeeding.SeedEmpty | dbReports/iondb/bin/add_fileserver.py:46-74 | on empty tables the script creates "Home" and a server linked to it |
| FileServerSeeding.SubstringBlocksHome | dbReports/iondb/bin/add_fileserver.py:11-15 | a location named "Ho" prevents both the Home location and the file server |
| FileServerSeeding.PrefixServerNameBlocks | dbReports/iondb/bin/add_fileserver.py:28-31 | an existing server named by a prefix of the new name blocks the new row |
| FileServerSeeding.Database.AddLocation | dbReports/iondb/bin/add_fileserver.py:8-20 | the scan with early return leaves the Location table as specified and the FileServer table unchanged |
| FileServerSeeding.Database.AddFileServer | dbReports/iondb/bin/add_fileserver.py:23-43 | the two scans leave the FileServer table as specified and never touch the Location table |
| FileServerSeeding.Database.Seed | dbReports/iondb/bin/add_fileserver.py:54-74 | with fewer than two arguments: status 1 and nothing changes; otherwise status 0 and the seeded tables |

## Left out

- Process execution is not modelled: subprocess calls, `mkfifo` and `rm`, printing, log-file deletion, timing and option parsing. The obsolete-option warnings are left out too. The commands themselves are modelled as strings.
- The `except` branch of `getIndexVersion` is not modelled because it cannot be reached by a failing probe. `execute_output` already catches every exception and returns "". With `shell=True`, a missing `tmap` binary does not raise either: it yields the shell's error text. The model covers both outcomes through the arbitrary probe output `tmapVersionOutput`, which may be "".
- `os.path.normpath` in the BamDuplicates JSON name is taken as the identity.
- Files.IsMounted: takes the path after `os.path.abspath`, that is, a normalised absolute path with one leading slash. The normalisation itself is not modelled. `abspath` keeps exactly two leading slashes ("//x"), and then the loop as written does not stop at the root: see "## Findings". Files.IsMountedAnyRoot is the corrected loop that also accepts that form.
- Files.CommonPrefix: `os.path.commonprefix` computes through the lexicographic minimum and maximum. The model uses the equivalent longest common prefix of all entries.
- Files.RenamePlan: the directory walk over `/etc/apt` and `os.rename` are not modelled. `fnmatch` is read as a plain suffix test, so glob metacharacters inside the old extension are not interpreted.
- `make_relative_directories` and the zip reads and writes in `unzip_archive` are not modelled. Only the selection of names is.
- `ismountpoint` is an abstract probe. `statvfs` is replaced by its two counts.
- The Django ORM (`objects.all()`, `save()`) is reduced to ordered sequences with append. Database exceptions are not modelled, and neither is the script's exit on them.
- DataManagement: JavaScript numbers are integers here, so fractions, NaN and Infinity values are not represented. Objects are opaque, and loose equality is modelled only against letter-initial literals other than "Infinity".
- `filter`, the grid timers and the other jQuery handlers of the page are outside this model.

## Findings

| source | as written | input that shows it | evidently intended | confidence | as-written member | corrected member |
|---|---|---|---|---|---|---|
| dbReports/iondb/utils/files.py:193-197 | the loop stops only when the path equals "/"; `abspath` keeps a doubled leading slash, and `dirname("//")` is "//" | "//x" with a probe that never succeeds: the loop never ends; with a probe that reports the root: it returns "//" | stop at the root however it is spelt, and never report the root | medium, not executed | Files.WalkAsWritten, Files.DoubleSlashPathMisbehaves | Files.IsMountedAnyRoot |
