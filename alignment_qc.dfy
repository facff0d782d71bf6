/**
 * The alignment driver: choosing the index version, finding the reference
 * genome on a colon-separated search path, classifying the input reads,
 * naming the outputs and assembling the aligner command line.
 *
 * The filesystem test `os.path.exists` is a parameter `pathExists`, and the
 * output of `tmap index --version` is a parameter; nothing is run.
 */
module AlignmentQC {
  import opened Results
  import opened Text

  /** The conditions that end a run (exit status 1, or an uncaught exception). */
  datatype AlignError =
    | NonPositiveThreads                                        // "must specify a positive number of threads"
    | MissingInput                                              // "Option --input is required"
    | UnknownReadSuffix(readFile: string)                       // suffix not one of the four known ones
    | NoSearchPath                                              // "no base paths defined to search ..."
    | MissingGenome                                             // "Option --genome is required"
    | NoIndexVersion                                            // `None + "/"` raises TypeError
    | ReferenceNotFound(genome: string, searched: seq<string>)  // "unable to find reference genome"
    | UnknownAligner(aligner: string)                           // "unknown aligner"
    | FastaMissing(fastaFile: string)                           // "unable to find reference fasta file"

  // ---------------------------------------------------------------- index version

  /** `getIndexVersion`: the stripped probe output for tmap, a fixed token for bowtie2, None otherwise. */
  function IndexVersion(aligner: string, tmapVersionOutput: string): (r: Option<string>)
    ensures r.Some? <==> aligner == "tmap" || aligner == "bowtie2"
    ensures aligner == "tmap" ==> r.Some? && |r.value| <= |tmapVersionOutput|
    ensures aligner == "tmap" ==> r.value == [] || (!IsSpace(r.value[0]) && !IsSpace(r.value[|r.value| - 1]))
  {
    if aligner == "tmap" then Some(Strip(tmapVersionOutput))
    else if aligner == "bowtie2" then Some("bowtie2")
    else None
  }

  /** The version used for the search: `--aligner-format-version` when given, else `getIndexVersion`. */
  function ChosenIndexVersion(formatVersion: string, aligner: string, tmapVersionOutput: string): (r: Option<string>)
    ensures r.Some? <==> formatVersion != "" || aligner == "tmap" || aligner == "bowtie2"
    ensures formatVersion != "" ==> r == Some(formatVersion)
    ensures formatVersion == "" && aligner == "bowtie2" ==> r == Some("bowtie2")
  {
    if formatVersion != "" then Some(formatVersion) else IndexVersion(aligner, tmapVersionOutput)
  }

  /** An explicit format version is used verbatim, whatever the aligner, and the probe output is never looked at. */
  lemma ExplicitVersionWins(formatVersion: string, aligner: string, out1: string, out2: string)
    requires formatVersion != ""
    ensures ChosenIndexVersion(formatVersion, aligner, out1) == Some(formatVersion)
    ensures ChosenIndexVersion(formatVersion, aligner, out1) == ChosenIndexVersion(formatVersion, aligner, out2)
  {
  }

  /** Without an explicit version, tmap's version is the stripped probe output, bowtie2's is "bowtie2", any other aligner has none. */
  lemma ProbedVersion(aligner: string, out: string)
    ensures ChosenIndexVersion("", aligner, out) ==
            if aligner == "tmap" then Some(Strip(out))
            else if aligner == "bowtie2" then Some("bowtie2")
            else None
  {
  }

  // ---------------------------------------------------------------- findReference

  /** The 4-tuple `(refLocation, "", fastaFile, "")` that `findReference` returns. */
  datatype Reference = Reference(refDir: string, refInfo: string, refFasta: string, infoFile: string)

  /** `base + "/" + dirName` for each base, in order. */
  function Candidates(bases: seq<string>, dirName: string): (cands: seq<string>)
    ensures |cands| == |bases|
  {
    seq(|bases|, k requires 0 <= k < |bases| => bases[k] + "/" + dirName)
  }

  /** The directories tried for `genome` under `indexVersion`, one per entry of the search path. */
  function SearchCandidates(genomePath: string, indexVersion: string, genome: string): (r: seq<string>)
    ensures |r| == |Split(genomePath, ':')|
    ensures forall k :: 0 <= k < |r| ==> r[k] == Split(genomePath, ':')[k] + "/" + indexVersion + "/" + genome
  {
    Candidates(Split(genomePath, ':'), indexVersion + "/" + genome)
  }

  /** The index of the first candidate that exists. */
  function FirstExisting(cands: seq<string>, pathExists: string -> bool): (r: Option<nat>)
    ensures r.Some? ==> r.value < |cands| && pathExists(cands[r.value])
    ensures r.Some? ==> forall j :: 0 <= j < r.value ==> !pathExists(cands[j])
    ensures r.None? ==> forall j :: 0 <= j < |cands| ==> !pathExists(cands[j])
    decreases |cands|
  {
    if cands == [] then None
    else if pathExists(cands[0]) then Some(0)
    else match FirstExisting(cands[1..], pathExists)
      case None => None
      case Some(k) => Some(k + 1)
  }

  /** The fasta path for a found directory: `<genome>.fasta` for tmap, the bare index prefix for bowtie2. */
  function FastaPath(aligner: string, dir: string, genome: string): (r: string)
    ensures |r| == |dir| + 1 + |genome| + (if aligner == "tmap" then 6 else 0)
    ensures r[..|dir| + 1] == dir + "/" && r[|dir| + 1..|dir| + 1 + |genome|] == genome
    ensures aligner == "tmap" ==> EndsWith(r, ".fasta")
  {
    if aligner == "tmap" then dir + "/" + genome + ".fasta" else dir + "/" + genome
  }

  /** What `findReference` returns or the error it stops with. */
  function ResolveReference(genomePath: string, genome: string, aligner: string,
                            indexVersion: Option<string>, pathExists: string -> bool): (r: Result<Reference, AlignError>)
    ensures genomePath == "" ==> r == Err(NoSearchPath)
    ensures genomePath != "" && genome == "" ==> r == Err(MissingGenome)
    ensures genomePath != "" && genome != "" && indexVersion.None? ==> r == Err(NoIndexVersion)
    ensures r.Ok? ==> r.value.refInfo == "" && r.value.infoFile == ""
    ensures r.Ok? ==> genomePath != "" && genome != "" && indexVersion.Some?
    ensures r.Ok? ==> r.value.refDir in SearchCandidates(genomePath, indexVersion.value, genome)
    ensures r.Ok? ==> pathExists(r.value.refDir) && (aligner == "tmap" || aligner == "bowtie2")
    ensures r.Ok? ==> r.value.refFasta == FastaPath(aligner, r.value.refDir, genome)
    ensures r.Ok? && aligner == "tmap" ==> pathExists(r.value.refFasta)
  {
    if genomePath == "" then Err(NoSearchPath)
    else if genome == "" then Err(MissingGenome)
    else if indexVersion.None? then Err(NoIndexVersion)
    else
      var cands := SearchCandidates(genomePath, indexVersion.value, genome);
      match FirstExisting(cands, pathExists)
      case None => Err(ReferenceNotFound(genome, cands))
      case Some(k) =>
        var dir := cands[k];
        if aligner == "tmap" then
          var fasta := FastaPath(aligner, dir, genome);
          if pathExists(fasta) then Ok(Reference(dir, "", fasta, "")) else Err(FastaMissing(fasta))
        else if aligner == "bowtie2" then Ok(Reference(dir, "", FastaPath(aligner, dir, genome), ""))
        else Err(UnknownAligner(aligner))
  }

  /**
   * `findReference`: tries `base/indexVersion/genome` for each base of the
   * search path in order and stops at the first that exists.
   */
  method FindReference(genomePath: string, genome: string, aligner: string,
                       indexVersion: Option<string>, pathExists: string -> bool) returns (r: Result<Reference, AlignError>)
    ensures r == ResolveReference(genomePath, genome, aligner, indexVersion, pathExists)
  {
    if genomePath == "" {
      return Err(NoSearchPath);
    }
    if genome == "" {
      return Err(MissingGenome);
    }
    if indexVersion.None? {
      return Err(NoIndexVersion);
    }
    var dirName := indexVersion.value + "/" + genome;
    var bases := Split(genomePath, ':');
    ghost var cands := SearchCandidates(genomePath, indexVersion.value, genome);
    assert |cands| == |bases| && forall j :: 0 <= j < |bases| ==> cands[j] == bases[j] + "/" + dirName;
    var found := false;
    var refLocation := "";
    var i := 0;
    while i < |bases|
      invariant 0 <= i <= |bases|
      invariant forall j :: 0 <= j < i ==> !pathExists(cands[j])
      invariant !found
    {
      refLocation := bases[i] + "/" + dirName;
      if pathExists(refLocation) {
        found := true;
        break;
      }
      i := i + 1;
    }
    if !found {
      var searched := [];
      var j := 0;
      while j < |bases|
        invariant 0 <= j <= |bases|
        invariant searched == cands[..j]
      {
        searched := searched + [bases[j] + "/" + dirName];
        j := j + 1;
      }
      assert searched == cands;
      return Err(ReferenceNotFound(genome, searched));
    }
    ghost var first := FirstExisting(cands, pathExists);
    assert first.Some? && first.value == i;
    var fastaFile;
    if aligner == "tmap" {
      fastaFile := refLocation + "/" + genome + ".fasta";
    } else if aligner == "bowtie2" {
      fastaFile := refLocation + "/" + genome;
    } else {
      return Err(UnknownAligner(aligner));
    }
    if aligner == "tmap" && !pathExists(fastaFile) {
      return Err(FastaMissing(fastaFile));
    }
    r := Ok(Reference(refLocation, "", fastaFile, ""));
  }

  /** The first base (in search-path order) whose directory exists is the one used; later bases do not matter. */
  lemma FirstMatchWins(genomePath: string, genome: string, aligner: string, version: string,
                       pathExists: string -> bool, k: nat)
    requires genomePath != "" && genome != "" && (aligner == "tmap" || aligner == "bowtie2")
    requires k < |Split(genomePath, ':')|
    requires var cands := SearchCandidates(genomePath, version, genome);
             pathExists(cands[k]) && forall j :: 0 <= j < k ==> !pathExists(cands[j])
    requires aligner == "tmap" ==> pathExists(FastaPath(aligner, SearchCandidates(genomePath, version, genome)[k], genome))
    ensures var r := ResolveReference(genomePath, genome, aligner, Some(version), pathExists);
            r.Ok? && r.value.refDir == Split(genomePath, ':')[k] + "/" + version + "/" + genome
  {
    var cands := SearchCandidates(genomePath, version, genome);
    var base := Split(genomePath, ':')[k];
    assert FirstExisting(cands, pathExists) == Some(k);
    assert cands[k] == base + "/" + (version + "/" + genome) == base + "/" + version + "/" + genome;
    assert ResolveReference(genomePath, genome, aligner, Some(version), pathExists)
        == Ok(Reference(cands[k], "", FastaPath(aligner, cands[k], genome), ""));
  }

  /** Candidates after the first existing one are never consulted. */
  lemma {:induction false} FirstExistingIgnoresLater(cands: seq<string>, e1: string -> bool, e2: string -> bool, k: nat)
    requires k < |cands|
    requires forall j :: 0 <= j <= k ==> e1(cands[j]) == e2(cands[j])
    requires FirstExisting(cands, e1) == Some(k)
    ensures FirstExisting(cands, e2) == Some(k)
    decreases k
  {
    if k > 0 {
      FirstExistingIgnoresLater(cands[1..], e1, e2, k - 1);
    }
  }

  /**
   * Two filesystems that agree on the candidates up to and including the
   * first one that pathExists, and on its fasta file, give the same reference.
   */
  lemma ResolutionIgnoresLaterBases(genomePath: string, genome: string, aligner: string, version: string,
                                    e1: string -> bool, e2: string -> bool, k: nat)
    requires genomePath != "" && genome != ""
    requires var cands := SearchCandidates(genomePath, version, genome);
             && FirstExisting(cands, e1) == Some(k)
             && (forall j :: 0 <= j <= k ==> e1(cands[j]) == e2(cands[j]))
             && e1(FastaPath(aligner, cands[k], genome)) == e2(FastaPath(aligner, cands[k], genome))
    ensures ResolveReference(genomePath, genome, aligner, Some(version), e1)
         == ResolveReference(genomePath, genome, aligner, Some(version), e2)
  {
    FirstExistingIgnoresLater(SearchCandidates(genomePath, version, genome), e1, e2, k);
  }

  /**
   * When no candidate exists the run fails, naming exactly one directory per
   * colon-separated base (one more than the number of colons), in order.
   */
  lemma NotFoundListsEveryBase(genomePath: string, genome: string, aligner: string, version: string,
                               pathExists: string -> bool)
    requires genomePath != "" && genome != ""
    requires forall c :: c in SearchCandidates(genomePath, version, genome) ==> !pathExists(c)
    ensures var r := ResolveReference(genomePath, genome, aligner, Some(version), pathExists);
            && r.Err? && r.error.ReferenceNotFound? && r.error.genome == genome
            && |r.error.searched| == Count(genomePath, ':') + 1
            && forall j :: 0 <= j < |r.error.searched| ==>
                 r.error.searched[j] == Split(genomePath, ':')[j] + "/" + version + "/" + genome
  {
    SplitLength(genomePath, ':');
    var cands := SearchCandidates(genomePath, version, genome);
    forall k | 0 <= k < |cands| ensures !pathExists(cands[k]) {
      assert cands[k] in cands;
    }
    assert FirstExisting(cands, pathExists).None?;
    assert ResolveReference(genomePath, genome, aligner, Some(version), pathExists) == Err(ReferenceNotFound(genome, cands));
  }

  /** With a directory found but its fasta missing, tmap fails with its own error, not "not found". */
  lemma FastaMissingIsDistinct(genomePath: string, genome: string, version: string, pathExists: string -> bool, k: nat)
    requires genomePath != "" && genome != ""
    requires FirstExisting(SearchCandidates(genomePath, version, genome), pathExists) == Some(k)
    requires !pathExists(SearchCandidates(genomePath, version, genome)[k] + "/" + genome + ".fasta")
    ensures ResolveReference(genomePath, genome, "tmap", Some(version), pathExists)
         == Err(FastaMissing(SearchCandidates(genomePath, version, genome)[k] + "/" + genome + ".fasta"))
  {
  }

  /** An empty search path or genome name stops the run before any directory is tested. */
  lemma ConfigurationCheckedFirst(genomePath: string, genome: string, aligner: string,
                                  version: Option<string>, e1: string -> bool, e2: string -> bool)
    requires genomePath == "" || genome == ""
    ensures var r := ResolveReference(genomePath, genome, aligner, version, e1);
            r == ResolveReference(genomePath, genome, aligner, version, e2)
            && r == Err(if genomePath == "" then NoSearchPath else MissingGenome)
  {
  }

  // ---------------------------------------------------------------- input reads

  datatype ReadType = Fasta | Fastq | Sff | Bam

  /** The suffix that selects each read-file type. */
  function Extension(t: ReadType): string
  {
    match t
    case Fasta => ".fasta"
    case Fastq => ".fastq"
    case Sff => ".sff"
    case Bam => ".basecaller.bam"
  }

  /** The type of the input reads and the base name left after dropping its suffix. */
  function ClassifyReads(readFile: string): (r: Result<(ReadType, string), AlignError>)
    ensures r.Ok? <==> exists t :: EndsWith(readFile, Extension(t))
    ensures r.Err? ==> r.error == UnknownReadSuffix(readFile)
    ensures r.Ok? ==> EndsWith(readFile, Extension(r.value.0))
    ensures r.Ok? && r.value.0 != Sff ==> r.value.1 + Extension(r.value.0) == readFile
    ensures r.Ok? && r.value.0 == Sff ==> r.value.1 == DropLast(readFile, 6)
  {
    if EndsWith(readFile, ".fasta") then
      assert EndsWith(readFile, Extension(Fasta));
      Ok((Fasta, DropLast(readFile, 6)))
    else if EndsWith(readFile, ".fastq") then
      assert EndsWith(readFile, Extension(Fastq));
      Ok((Fastq, DropLast(readFile, 6)))
    else if EndsWith(readFile, ".sff") then
      assert EndsWith(readFile, Extension(Sff));
      Ok((Sff, DropLast(readFile, 6)))
    else if EndsWith(readFile, ".basecaller.bam") then
      assert EndsWith(readFile, Extension(Bam));
      Ok((Bam, DropLast(readFile, 15)))
    else
      assert forall t: ReadType :: t.Fasta? || t.Fastq? || t.Sff? || t.Bam?;
      Err(UnknownReadSuffix(readFile))
  }

  /** A name whose last character differs from the suffix's does not end with it. */
  lemma LastCharMismatch(s: string, suffix: string)
    requires |suffix| > 0 && (|s| == 0 || s[|s| - 1] != suffix[|suffix| - 1])
    ensures !EndsWith(s, suffix)
  {
    if |suffix| <= |s| {
      assert s[|s| - |suffix|..][|suffix| - 1] == s[|s| - 1];
    }
  }

  /** Appending a known suffix to a base name and classifying gives back the type and, except for .sff, the base. */
  lemma ClassifyRoundTrip(base: string, t: ReadType)
    ensures var r := ClassifyReads(base + Extension(t));
            r.Ok? && r.value.0 == t && (t != Sff ==> r.value.1 == base)
  {
    var f := base + Extension(t);
    assert f[|base|..] == Extension(t);
    assert EndsWith(f, Extension(t));
    assert f[|f| - 1] == Extension(t)[|Extension(t)| - 1];
    match t
    case Fasta =>
    case Fastq =>
      LastCharMismatch(f, ".fasta");
    case Sff =>
      LastCharMismatch(f, ".fasta");
      LastCharMismatch(f, ".fastq");
    case Bam =>
      LastCharMismatch(f, ".fasta");
      LastCharMismatch(f, ".fastq");
      LastCharMismatch(f, ".sff");
  }

  /** An .sff name loses six characters, two more than its suffix: the base is not the name minus ".sff". */
  lemma SffDropsSixCharacters(base: string)
    requires |base| >= 2
    ensures var r := ClassifyReads(base + ".sff");
            r.Ok? && r.value.0 == Sff && r.value.1 == base[..|base| - 2] && r.value.1 != base
  {
    var f := base + ".sff";
    ClassifyRoundTrip(base, Sff);
    assert f[..|f| - 6] == base[..|base| - 2];
  }

  // ---------------------------------------------------------------- command assembly

  /** Each fragment the driver appends to the command line, one per `command +=`. */
  datatype Piece =
    | TmapMapall                                    // "tmap mapall"
    | TmapThreads(n: int)                           // " -n %d"
    | ServerKey(key: string)                        // " -k %s"
    | RefFasta(path: string)                        // " -f %s"
    | Reads(path: string)                           // " -r %s"
    | Verbose                                       // " -v"
    | FlowspaceTags                                 // " -Y"
    | Bidirectional                                 // " --bidirectional"
    | DoRealign                                     // " --do-realign"
    | ReadGroup(opts: string)                       // " " + aligner_opts_rg
    | PrefixExcludeSeed                             // " -u --prefix-exclude 5"
    | UncompressedBam                               // " -o 2"
    | ExtraOpts(opts: string)                       // " " + aligner_opts_extra
    | LogRedirect(logfile: string)                  // " 2>> " + logfile
    | SamToFastq(picard: string, input: string, fifo: string)
    | Bowtie2(threads: int, index: string, fifo: string)
    | SamToBam                                      // " | samtools view -ubS -"
    | SortTo                                        // " | samtools sort -m 2G -l1 -@3 -"
    | RedirectTo                                    // " >"
    | Target(path: string)                          // " %s"
    | BamExtension                                  // ".bam"

  /** The text each fragment adds to the command string. */
  function Render(p: Piece): (r: string)
    ensures |r| > 0
    ensures p.TmapMapall? || p.SamToFastq? || p.BamExtension? || r[0] == ' '
  {
    match p
    case TmapMapall => "tmap mapall"
    case TmapThreads(n) => " -n " + IntToDecimal(n)
    case ServerKey(key) => " -k " + key
    case RefFasta(path) => " -f " + path
    case Reads(path) => " -r " + path
    case Verbose => " -v"
    case FlowspaceTags => " -Y"
    case Bidirectional => " --bidirectional"
    case DoRealign => " --do-realign"
    case ReadGroup(opts) => " " + opts
    case PrefixExcludeSeed => " -u --prefix-exclude 5"
    case UncompressedBam => " -o 2"
    case ExtraOpts(opts) => " " + opts
    case LogRedirect(logfile) => " 2>> " + logfile
    case SamToFastq(picard, input, fifo) => "java -Xmx8g -jar " + picard + " SamToFastq I=" + input + " F=" + fifo
    case Bowtie2(threads, index, fifo) =>
      [' '] + "| /results/plugins/bowtielauncher/bowtie2 -p" + IntToDecimal(threads) + " -x " + index + " -U " + fifo
    case SamToBam => " | samtools view -ubS -"
    case SortTo => " | samtools sort -m 2G -l1 -@3 -"
    case RedirectTo => " >"
    case Target(path) => " " + path
    case BamExtension => ".bam"
  }

  /** The command string: the fragments' texts concatenated in order. */
  function RenderAll(ps: seq<Piece>): (r: string)
    ensures |r| >= |ps|
    ensures ps != [] ==> Render(ps[0]) <= r
    decreases |ps|
  {
    if ps == [] then "" else Render(ps[0]) + RenderAll(ps[1..])
  }

  /** Appending fragments appends their text: each `command +=` extends the string by exactly its fragment. */
  lemma {:induction false} RenderAllAppend(a: seq<Piece>, b: seq<Piece>)
    ensures RenderAll(a + b) == RenderAll(a) + RenderAll(b)
    decreases |a|
  {
    if a == [] {
      assert a + b == b;
    } else {
      assert (a + b)[0] == a[0] && (a + b)[1..] == a[1..] + b;
      RenderAllAppend(a[1..], b);
    }
  }

  /** The command-line options the driver reads; an option left unset is "" (every use is behind a truth test). */
  datatype Options = Options(
    readFile: string,
    genome: string,
    outBaseName: string,
    threads: int,
    serverKey: string,
    aligner: string,
    alignerOptsRg: string,
    alignerOptsExtra: string,
    markDuplicates: bool,
    bidirectional: bool,
    indexing: bool,
    skipSorting: bool,
    genomePath: string,
    realign: bool,
    alignerFormatVersion: string,
    outputDir: string,
    logfile: string)

  /** The shape of a tmap command promised by the driver. */
  predicate TmapShape(ps: seq<Piece>, opts: Options, refFasta: string)
  {
    && |ps| >= 10
    && ps[0] == TmapMapall
    && ps[1] == TmapThreads(opts.threads)
    && ps[2] == (if opts.serverKey != "" then ServerKey(opts.serverKey) else RefFasta(refFasta))
    && (forall k :: 0 <= k < |ps| && k != 2 ==> !ps[k].ServerKey? && !ps[k].RefFasta?)
    && Reads(opts.readFile) in ps
    && (Bidirectional in ps <==> opts.bidirectional)
    && (DoRealign in ps <==> opts.realign)
    && (ReadGroup(opts.alignerOptsRg) in ps <==> opts.alignerOptsRg != "")
    && ps[|ps| - 2] == ExtraOpts(opts.alignerOptsExtra)
    && ps[|ps| - 1] == LogRedirect(opts.logfile)
  }

  /** The name of the FIFO that feeds bowtie2. */
  function FastqFifo(bamBase: string): string
  {
    bamBase + ".fastqfifo"
  }

  /** The tmap invocation's fragments, in the order the driver appends them. */
  function TmapPieces(opts: Options, refFasta: string): (r: seq<Piece>)
    ensures |r| == 10 + |TmapSwitches(opts)|
  {
    TmapHead(opts, refFasta) + TmapSwitches(opts) + TmapTail(opts)
  }

  /** The six fragments before the optional switches: program, threads, index, reads, `-v`, `-Y`. */
  function TmapHead(opts: Options, refFasta: string): seq<Piece>
  {
    [TmapMapall, TmapThreads(opts.threads),
     if opts.serverKey != "" then ServerKey(opts.serverKey) else RefFasta(refFasta),
     Reads(opts.readFile), Verbose, FlowspaceTags]
  }

  /** The four fragments after the optional switches. */
  function TmapTail(opts: Options): seq<Piece>
  {
    [PrefixExcludeSeed, UncompressedBam, ExtraOpts(opts.alignerOptsExtra), LogRedirect(opts.logfile)]
  }

  /** The optional tmap switches: bidirectional, realignment, read group. */
  function TmapSwitches(opts: Options): (r: seq<Piece>)
    ensures forall x :: x in r ==> x.Bidirectional? || x.DoRealign? || x.ReadGroup?
    ensures Bidirectional in r <==> opts.bidirectional
    ensures DoRealign in r <==> opts.realign
    ensures ReadGroup(opts.alignerOptsRg) in r <==> opts.alignerOptsRg != ""
  {
    (if opts.bidirectional then [Bidirectional] else [])
    + (if opts.realign then [DoRealign] else [])
    + (if opts.alignerOptsRg != "" then [ReadGroup(opts.alignerOptsRg)] else [])
  }

  /** Only the third tmap fragment names the index: a server key or the reference FASTA. */
  lemma TmapIndexOnce(opts: Options, refFasta: string)
    ensures forall k :: 0 <= k < |TmapPieces(opts, refFasta)| && k != 2 ==>
              !TmapPieces(opts, refFasta)[k].ServerKey? && !TmapPieces(opts, refFasta)[k].RefFasta?
  {
    var head, optional, tail := TmapHead(opts, refFasta), TmapSwitches(opts), TmapTail(opts);
    var ps := TmapPieces(opts, refFasta);
    assert ps == head + optional + tail;
    forall k | 0 <= k < |ps| && k != 2
      ensures !ps[k].ServerKey? && !ps[k].RefFasta?
    {
      if k < 6 {
        assert ps[k] == head[k];
      } else if k < 6 + |optional| {
        assert ps[k] == optional[k - 6];
      } else {
        assert ps[k] == tail[k - 6 - |optional|];
      }
    }
  }

  /** An optional switch occurs in the tmap invocation exactly when it occurs among the switches. */
  lemma SwitchInTmapPieces(opts: Options, refFasta: string, x: Piece)
    requires x.Bidirectional? || x.DoRealign? || x.ReadGroup?
    ensures x in TmapPieces(opts, refFasta) <==> x in TmapSwitches(opts)
  {
    var head, tail := TmapHead(opts, refFasta), TmapTail(opts);
    assert TmapPieces(opts, refFasta) == head + TmapSwitches(opts) + tail;
    assert x !in head && x !in tail;
  }

  /** The tmap invocation has the promised shape. */
  lemma TmapPiecesShape(opts: Options, refFasta: string)
    ensures TmapShape(TmapPieces(opts, refFasta), opts, refFasta)
  {
    var head, optional, tail := TmapHead(opts, refFasta), TmapSwitches(opts), TmapTail(opts);
    var ps := TmapPieces(opts, refFasta);
    assert ps == head + optional + tail;
    TmapIndexOnce(opts, refFasta);
    assert ps[0] == head[0] && ps[1] == head[1] && ps[2] == head[2];
    assert ps[3] == head[3] == Reads(opts.readFile);
    assert Reads(opts.readFile) in ps;
    assert ps[|ps| - 2] == tail[2] && ps[|ps| - 1] == tail[3];
    SwitchInTmapPieces(opts, refFasta, Bidirectional);
    SwitchInTmapPieces(opts, refFasta, DoRealign);
    SwitchInTmapPieces(opts, refFasta, ReadGroup(opts.alignerOptsRg));
  }

  /** The bowtie2 pipeline's three stages, joined by the FIFO and pipes. */
  function Bowtie2Pieces(opts: Options, refFasta: string, bamBase: string, picardPath: string): (r: seq<Piece>)
    ensures |r| == 3 && r[0].SamToFastq? && r[1].Bowtie2? && r[2] == SamToBam
    ensures r[0].fifo == r[1].fifo == FastqFifo(bamBase)
    ensures r[0].picard == picardPath && r[0].input == opts.readFile
    ensures r[1].index == refFasta && r[1].threads == opts.threads
  {
    [SamToFastq(picardPath, opts.readFile, FastqFifo(bamBase)),
     Bowtie2(opts.threads, refFasta, FastqFifo(bamBase)),
     SamToBam]
  }

  /** The optional tmap switches, each appended when its option is set. */
  method AppendTmapSwitches(command: seq<Piece>, opts: Options) returns (r: seq<Piece>)
    ensures r == command + TmapSwitches(opts)
  {
    r := command;
    if opts.bidirectional {
      r := r + [Bidirectional];
    }
    if opts.realign {
      r := r + [DoRealign];
    }
    if opts.alignerOptsRg != "" {
      r := r + [ReadGroup(opts.alignerOptsRg)];
    }
  }

  /** The tmap branch: the invocation built one `command +=` at a time. */
  method TmapCommand(opts: Options, refFasta: string) returns (command: seq<Piece>)
    ensures command == TmapPieces(opts, refFasta)
  {
    command := [TmapMapall];
    command := command + [TmapThreads(opts.threads)];
    if opts.serverKey != "" {
      command := command + [ServerKey(opts.serverKey)];
    } else {
      command := command + [RefFasta(refFasta)];
    }
    command := command + [Reads(opts.readFile)];
    command := command + [Verbose];
    command := command + [FlowspaceTags];
    ghost var head := command;
    assert head == TmapHead(opts, refFasta);
    command := AppendTmapSwitches(command, opts);
    assert command == head + TmapSwitches(opts);
    command := command + [PrefixExcludeSeed];
    command := command + [UncompressedBam];
    command := command + [ExtraOpts(opts.alignerOptsExtra)];
    command := command + [LogRedirect(opts.logfile)];
    assert command == head + TmapSwitches(opts) + TmapTail(opts);
  }

  /**
   * The aligner stage of the command: tmap's single invocation, or bowtie2's
   * three-stage pipe (BAM to FASTQ, alignment, SAM to BAM).
   */
  method AlignerCommand(opts: Options, refFasta: string, bamBase: string, picardPath: string)
    returns (r: Result<seq<Piece>, AlignError>)
    ensures opts.aligner == "tmap" ==> r == Ok(TmapPieces(opts, refFasta)) && TmapShape(r.value, opts, refFasta)
    ensures opts.aligner == "bowtie2" ==> r == Ok(Bowtie2Pieces(opts, refFasta, bamBase, picardPath))
    ensures opts.aligner != "tmap" && opts.aligner != "bowtie2" ==> r == Err(UnknownAligner(opts.aligner))
  {
    var command: seq<Piece>;
    if opts.aligner == "tmap" {
      command := TmapCommand(opts, refFasta);
      TmapPiecesShape(opts, refFasta);
      r := Ok(command);
    } else if opts.aligner == "bowtie2" {
      var fastqPipe := FastqFifo(bamBase);
      command := [SamToFastq(picardPath, opts.readFile, fastqPipe)];
      command := command + [Bowtie2(opts.threads, refFasta, fastqPipe)];
      command := command + [SamToBam];
      assert command == Bowtie2Pieces(opts, refFasta, bamBase, picardPath);
      r := Ok(command);
    } else {
      r := Err(UnknownAligner(opts.aligner));
    }
  }


  /**
   * The BAM file the pipeline leaves behind, read from the end of the command:
   * a plain redirect writes the target itself, while `samtools sort` treats
   * the target as an output prefix and adds ".bam".
   */
  function ProducedFile(ps: seq<Piece>): Option<string>
  {
    if |ps| >= 3 && ps[|ps| - 3] == RedirectTo && ps[|ps| - 2].Target? && ps[|ps| - 1] == BamExtension then
      Some(ps[|ps| - 2].path + ".bam")
    else if |ps| >= 2 && ps[|ps| - 2] == RedirectTo && ps[|ps| - 1].Target? then
      Some(ps[|ps| - 1].path)
    else if |ps| >= 2 && ps[|ps| - 2] == SortTo && ps[|ps| - 1].Target? then
      Some(ps[|ps| - 1].path + ".bam")
    else None
  }

  /** The output stage's fragments: sort or redirect, the target, and ".bam" when sorting is skipped. */
  function OutputPieces(skipSorting: bool, markDuplicates: bool, bamBase: string): (r: seq<Piece>)
    ensures |r| == if skipSorting then 3 else 2
    ensures Target(if markDuplicates then bamBase + ".tmp" else bamBase) in r
    ensures (SortTo in r) <==> !skipSorting
    ensures (BamExtension in r) <==> skipSorting
  {
    var target := Target(if markDuplicates then bamBase + ".tmp" else bamBase);
    if skipSorting then [RedirectTo, target, BamExtension] else [SortTo, target]
  }

  /**
   * Whatever the aligner stage, the output stage makes the pipeline leave
   * `bamBase.tmp.bam` when duplicates are to be marked and `bamBase.bam`
   * otherwise, sorting or not.
   */
  lemma OutputPiecesProduce(aligned: seq<Piece>, skipSorting: bool, markDuplicates: bool, bamBase: string)
    ensures ProducedFile(aligned + OutputPieces(skipSorting, markDuplicates, bamBase)) ==
              Some(if markDuplicates then bamBase + ".tmp.bam" else bamBase + ".bam")
    ensures SortTo in OutputPieces(skipSorting, markDuplicates, bamBase) <==> !skipSorting
    ensures BamExtension in OutputPieces(skipSorting, markDuplicates, bamBase) <==> skipSorting
  {
    var tail := OutputPieces(skipSorting, markDuplicates, bamBase);
    var ps := aligned + tail;
    assert (bamBase + ".tmp") + ".bam" == bamBase + ".tmp.bam";
    assert ps[|ps| - 1] == tail[|tail| - 1] && ps[|ps| - 2] == tail[|tail| - 2];
    if skipSorting {
      assert ps[|ps| - 3] == RedirectTo;
    }
  }

  /**
   * The output stage of the command: sort or redirect, then the target
   * (`bamBase.tmp` when duplicates are to be marked), then ".bam" when
   * sorting is skipped.
   */
  method AppendOutput(aligned: seq<Piece>, skipSorting: bool, markDuplicates: bool, bamBase: string)
    returns (command: seq<Piece>)
    ensures command == aligned + OutputPieces(skipSorting, markDuplicates, bamBase)
    ensures ProducedFile(command) == Some(if markDuplicates then bamBase + ".tmp.bam" else bamBase + ".bam")
  {
    if !skipSorting {
      command := aligned + [SortTo];
    } else {
      command := aligned + [RedirectTo];
    }
    if markDuplicates {
      command := command + [Target(bamBase + ".tmp")];
    } else {
      command := command + [Target(bamBase)];
    }
    if skipSorting {
      command := command + [BamExtension];
    }
    OutputPiecesProduce(aligned, skipSorting, markDuplicates, bamBase);
  }

  // ---------------------------------------------------------------- output naming

  /** The output base: `--out-base-name` when given, else the read file's base. */
  function OutBase(outBaseName: string, readFileBase: string): (r: string)
    ensures r == outBaseName || r == readFileBase
    ensures r == "" <==> outBaseName == "" && readFileBase == ""
    ensures outBaseName != "" ==> r == outBaseName
  {
    if outBaseName != "" then outBaseName else readFileBase
  }

  /** The JSON report of BamDuplicates (`os.path.normpath` is taken as the identity). */
  function JsonName(outBase: string): (r: string)
    ensures |r| >= 18 && r[..13] == "BamDuplicates" && r[13] == '.' && EndsWith(r, ".json")
    ensures outBase != "rawlib" ==> |r| == 19 + |outBase| && r[14..|r| - 5] == outBase
  {
    if outBase != "rawlib" then "BamDuplicates." + outBase + ".json" else "BamDuplicates.json"
  }

  /** The report is called `BamDuplicates.json` exactly when the base is "rawlib". */
  lemma JsonNameRawlib(outBase: string)
    ensures JsonName(outBase) == "BamDuplicates.json" <==> outBase == "rawlib"
  {
    if outBase != "rawlib" {
      assert |JsonName(outBase)| == 19 + |outBase|;
    }
  }

  /** The BamDuplicates invocation: read the unsorted-for-duplicates BAM, write the final one and the JSON report. */
  function DedupCommand(input: string, bamFile: string, jsonName: string): (r: string)
    ensures |r| == 25 + |input| + |bamFile| + |jsonName|
    ensures r[..17] == "BamDuplicates -i " && EndsWith(r, " -j " + jsonName)
    ensures r[17..17 + |input|] == input
    ensures r[17 + |input|..|r| - 4 - |jsonName|] == " -o " + bamFile
  {
    "BamDuplicates" + " -i " + input + " -o " + bamFile + " -j " + jsonName
  }

  /** The commands run after alignment: duplicate marking with its cleanup, and indexing. */
  function FollowUps(opts: Options, bamBase: string, outBase: string): (r: seq<string>)
    ensures |r| == (if opts.markDuplicates then 2 else 0) + (if opts.indexing && !opts.skipSorting then 1 else 0)
    ensures opts.markDuplicates ==> r[1] == "rm -v " + bamBase + ".tmp.bam"
    ensures opts.indexing && !opts.skipSorting ==> r[|r| - 1] == "samtools index " + bamBase + ".bam"
  {
    var bamFile := bamBase + ".bam";
    (if opts.markDuplicates then
       [DedupCommand(bamBase + ".tmp.bam", bamFile, JsonName(outBase)), "rm -v " + bamBase + ".tmp.bam"]
     else [])
    + (if opts.indexing && !opts.skipSorting then ["samtools index " + bamFile] else [])
  }

  /** What the filesystem and the outside world contribute to a run. */
  datatype Environment = Environment(pathExists: string -> bool, tmapVersionOutput: string, picardPath: string)

  /** Everything a successful run decides before it starts executing. */
  datatype AlignmentPlan = AlignmentPlan(
    reference: Reference,
    readType: ReadType,
    bamBase: string,
    pieces: seq<Piece>,
    command: string,
    fifo: Option<string>,
    followUps: seq<string>)

  /**
   * The checks and decisions of the driver's main block, in its order:
   * thread count, input name, read suffix, index version, reference search,
   * output naming and command assembly.
   */
  method PlanAlignment(opts: Options, env: Environment) returns (r: Result<AlignmentPlan, AlignError>)
    ensures opts.threads < 1 ==> r == Err(NonPositiveThreads)
    ensures opts.threads >= 1 && opts.readFile == "" ==> r == Err(MissingInput)
    ensures opts.threads >= 1 && opts.readFile != "" && ClassifyReads(opts.readFile).Err? ==>
              r == Err(UnknownReadSuffix(opts.readFile))
    ensures opts.threads >= 1 && opts.readFile != "" && ClassifyReads(opts.readFile).Ok? ==>
              var version := ChosenIndexVersion(opts.alignerFormatVersion, opts.aligner, env.tmapVersionOutput);
              var resolved := ResolveReference(opts.genomePath, opts.genome, opts.aligner, version, env.pathExists);
              (resolved.Err? ==> r == Err(resolved.error)) &&
              (resolved.Ok? ==> r.Ok? && r.value.reference == resolved.value)
    ensures r.Ok? ==>
              var readBase := ClassifyReads(opts.readFile).value.1;
              var outBase := OutBase(opts.outBaseName, readBase);
              var plan := r.value;
              && opts.threads >= 1
              && plan.readType == ClassifyReads(opts.readFile).value.0
              && plan.bamBase == opts.outputDir + "/" + outBase
              && plan.command == RenderAll(plan.pieces)
              && ProducedFile(plan.pieces) ==
                   Some(if opts.markDuplicates then plan.bamBase + ".tmp.bam" else plan.bamBase + ".bam")
              && (opts.aligner == "tmap" ==>
                    plan.pieces == TmapPieces(opts, plan.reference.refFasta)
                                   + OutputPieces(opts.skipSorting, opts.markDuplicates, plan.bamBase))
              && (opts.aligner == "bowtie2" ==>
                    plan.pieces == Bowtie2Pieces(opts, plan.reference.refFasta, plan.bamBase, env.picardPath)
                                   + OutputPieces(opts.skipSorting, opts.markDuplicates, plan.bamBase))
              && (opts.aligner == "bowtie2" <==> plan.fifo == Some(FastqFifo(plan.bamBase)))
              && (opts.aligner != "bowtie2" <==> plan.fifo.None?)
              && plan.followUps == FollowUps(opts, plan.bamBase, outBase)
  {
    if opts.threads < 1 {
      return Err(NonPositiveThreads);
    }
    if opts.readFile == "" {
      return Err(MissingInput);
    }
    var classified := ClassifyReads(opts.readFile);
    if classified.Err? {
      return Err(classified.error);
    }
    var (readType, readFileBase) := classified.value;
    var version := ChosenIndexVersion(opts.alignerFormatVersion, opts.aligner, env.tmapVersionOutput);
    var found := FindReference(opts.genomePath, opts.genome, opts.aligner, version, env.pathExists);
    if found.Err? {
      return Err(found.error);
    }
    var reference := found.value;
    var outBase := OutBase(opts.outBaseName, readFileBase);
    var bamBase := opts.outputDir + "/" + outBase;
    var aligned := AlignerCommand(opts, reference.refFasta, bamBase, env.picardPath);
    if aligned.Err? {
      return Err(UnknownAligner(opts.aligner));
    }
    var pieces := AppendOutput(aligned.value, opts.skipSorting, opts.markDuplicates, bamBase);
    var fifo := if opts.aligner == "bowtie2" then Some(FastqFifo(bamBase)) else None;
    r := Ok(AlignmentPlan(reference, readType, bamBase, pieces, RenderAll(pieces), fifo,
                          FollowUps(opts, bamBase, outBase)));
  }

  /**
   * The file the aligner stage leaves is the one the next step reads: with
   * duplicate marking, BamDuplicates' input `bamBase.tmp.bam`; otherwise the
   * final `bamBase.bam` that is indexed.
   */
  lemma ProducedFileFeedsFollowUps(opts: Options, plan: AlignmentPlan, outBase: string)
    requires ProducedFile(plan.pieces) ==
               Some(if opts.markDuplicates then plan.bamBase + ".tmp.bam" else plan.bamBase + ".bam")
    requires plan.followUps == FollowUps(opts, plan.bamBase, outBase)
    ensures opts.markDuplicates ==>
              plan.followUps[0] == DedupCommand(ProducedFile(plan.pieces).value, plan.bamBase + ".bam", JsonName(outBase))
    ensures !opts.markDuplicates && opts.indexing && !opts.skipSorting ==>
              plan.followUps == ["samtools index " + ProducedFile(plan.pieces).value]
  {
  }
}
