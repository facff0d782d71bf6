/**
 * The path and archive-name helpers of the storage utilities: the common
 * prefix of an archive's names, the absolute/relative check and blacklist,
 * the names an archive extracts to, the search for the enclosing mount
 * point, inode counts, and the extension renaming.
 */
module Files {
  import opened Results
  import opened Text
  import opened PosixPath

  /** The exceptions these helpers can raise. */
  datatype FileError =
    | IndexError   // `f[start]` on a name that is too short
    | MixedPaths   // ValueError: "Archive contains a mix of absolute and relative paths."

  // ---------------------------------------------------------------- get_common_prefix

  /** The longest common prefix of two strings. */
  function Lcp(a: string, b: string): (r: string)
    ensures r <= a && r <= b
    ensures |r| == |a| || |r| == |b| || a[|r|] != b[|r|]
    decreases |a|
  {
    if a != [] && b != [] && a[0] == b[0] then [a[0]] + Lcp(a[1..], b[1..]) else []
  }

  /** Every common prefix of `a` and `b` is a prefix of `Lcp(a, b)`. */
  lemma {:induction false} LcpLongest(a: string, b: string, q: string)
    requires q <= a && q <= b
    ensures q <= Lcp(a, b)
    decreases |a|
  {
    if q != [] {
      assert a[0] == q[0] == b[0];
      LcpLongest(a[1..], b[1..], q[1..]);
    }
  }

  /** `os.path.commonprefix`: the character-wise longest common prefix of a non-empty list. */
  function CommonPrefix(ds: seq<string>): (r: string)
    requires |ds| >= 1
    ensures forall k :: 0 <= k < |ds| ==> r <= ds[k]
    decreases |ds|
  {
    if |ds| == 1 then ds[0] else Lcp(ds[0], CommonPrefix(ds[1..]))
  }

  /** No common prefix of the list is longer than `CommonPrefix`. */
  lemma {:induction false} CommonPrefixLongest(ds: seq<string>, q: string)
    requires |ds| >= 1
    requires forall k :: 0 <= k < |ds| ==> q <= ds[k]
    ensures q <= CommonPrefix(ds)
    decreases |ds|
  {
    if |ds| > 1 {
      CommonPrefixLongest(ds[1..], q);
      LcpLongest(ds[0], CommonPrefix(ds[1..]), q);
    }
  }

  function Dirnames(files: seq<string>): (ds: seq<string>)
    ensures |ds| == |files|
  {
    seq(|files|, k requires 0 <= k < |files| => Dirname(files[k]))
  }

  /** Every name has a '/' at position `k`. */
  predicate SlashEverywhereAt(files: seq<string>, k: nat)
  {
    forall j :: 0 <= j < |files| ==> k < |files[j]| && files[j][k] == '/'
  }

  /** Some name is no longer than `k`, and every name before it has a '/' at `k`. */
  predicate ShortBeforeMiss(files: seq<string>, k: nat)
  {
    exists j :: 0 <= j < |files| && |files[j]| <= k && SlashEverywhereAt(files[..j], k)
  }

  /** Past a leading name with a '/' at `k`, the condition is the same on the rest. */
  lemma ShortBeforeMissStep(files: seq<string>, k: nat)
    requires files != [] && k < |files[0]| && files[0][k] == '/'
    ensures ShortBeforeMiss(files, k) <==> ShortBeforeMiss(files[1..], k)
  {
    if ShortBeforeMiss(files, k) {
      var j :| 0 <= j < |files| && |files[j]| <= k && SlashEverywhereAt(files[..j], k);
      assert j > 0;
      assert files[1..][..j - 1] == files[..j][1..];
      assert files[1..][j - 1] == files[j];
    }
    if ShortBeforeMiss(files[1..], k) {
      var j :| 0 <= j < |files[1..]| && |files[1..][j]| <= k && SlashEverywhereAt(files[1..][..j], k);
      assert files[..j + 1] == [files[0]] + files[1..][..j];
      assert files[j + 1] == files[1..][j];
    }
  }

  /**
   * Python's `all(f[k] == "/" for f in files)`: stops at the first name without
   * a slash at `k`, and raises IndexError on a name no longer than `k` met before that.
   */
  function AllSlashAt(files: seq<string>, k: nat): (r: Result<bool, FileError>)
    ensures r == Ok(true) <==> SlashEverywhereAt(files, k)
    ensures r.Err? <==> ShortBeforeMiss(files, k)
    ensures r.Err? ==> r.error == IndexError
    decreases |files|
  {
    if files == [] then Ok(true)
    else if |files[0]| <= k then
      assert SlashEverywhereAt(files[..0], k);
      Err(IndexError)
    else if files[0][k] != '/' then Ok(false)
    else
      ShortBeforeMissStep(files, k);
      AllSlashAt(files[1..], k)
  }

  /** Every name with its first `start` characters removed. */
  function DropEach(files: seq<string>, start: nat): (r: seq<string>)
    requires forall k :: 0 <= k < |files| ==> start <= |files[k]|
  {
    seq(|files|, k requires 0 <= k < |files| => files[k][start..])
  }

  /** The part after the first `n` characters, also skipping a slash when every name has one there. */
  function Relativise(files: seq<string>, n: nat): (r: Result<seq<string>, FileError>)
    requires forall k :: 0 <= k < |files| ==> n <= |files[k]|
    ensures r.Err? ==> exists k :: 0 <= k < |files| && |files[k]| == n
    ensures r.Ok? ==>
      var start := if SlashEverywhereAt(files, n) then n + 1 else n;
      |r.value| == |files| && forall k :: 0 <= k < |files| ==> start <= |files[k]| && r.value[k] == files[k][start..]
  {
    match AllSlashAt(files, n)
    case Err(e) => Err(e)
    case Ok(allSlash) => Ok(DropEach(files, if allSlash then n + 1 else n))
  }

  /** Python's `not files or not any(files)`. */
  predicate NoNames(files: seq<string>) {
    forall k :: 0 <= k < |files| ==> files[k] == ""
  }

  /** The directory prefix is never longer than a name, and only degenerate names reach its length. */
  lemma PrefixWithinNames(files: seq<string>, prefix: string)
    requires forall k :: 0 <= k < |files| ==> prefix <= Dirname(files[k])
    ensures forall k :: 0 <= k < |files| ==> |prefix| <= |files[k]|
    ensures forall k :: 0 <= k < |files| && |files[k]| == |prefix| ==> files[k] == "" || AllSlashes(files[k])
  {
    forall k | 0 <= k < |files| && |files[k]| == |prefix|
      ensures files[k] == "" || AllSlashes(files[k])
    {
      assert Dirname(files[k]) == files[k];
      DirnameFixpoint(files[k]);
    }
  }

  /**
   * `get_common_prefix`: the common prefix of the names' directories and the
   * names relative to it.
   */
  function GetCommonPrefix(files: seq<string>): (r: Result<(string, seq<string>), FileError>)
    ensures NoNames(files) ==> r == Ok(("", []))
    ensures !NoNames(files) && r.Ok? ==>
      var prefix := r.value.0;
      var rel := r.value.1;
      var start := if SlashEverywhereAt(files, |prefix|) then |prefix| + 1 else |prefix|;
      && (forall k :: 0 <= k < |files| ==> prefix <= Dirname(files[k]))
      && |rel| == |files|
      && forall k :: 0 <= k < |files| ==> start <= |files[k]| && rel[k] == files[k][start..]
    ensures r.Err? ==> exists k :: 0 <= k < |files| && (files[k] == "" || AllSlashes(files[k]))
    ensures r.Err? <==> !NoNames(files) && ShortBeforeMiss(files, |CommonPrefix(Dirnames(files))|)
  {
    if NoNames(files) then Ok(("", []))
    else
      var prefix := CommonPrefix(Dirnames(files));
      PrefixOfDirnames(files);
      PrefixWithinNames(files, prefix);
      match Relativise(files, |prefix|)
      case Err(e) => Err(e)
      case Ok(rel) => Ok((prefix, rel))
  }

  /**
   * `all()` stops at the first name without a '/' at the prefix length, so an
   * empty name after it raises nothing.
   */
  lemma EmptyNameAfterMiss()
    ensures GetCommonPrefix(["ab/c", ""]) == Ok(("", ["ab/c", ""]))
  {
    var files := ["ab/c", ""];
    assert Dirname(files[0]) == "ab" by {
      assert RFindSlash("ab/c") == 2;
      var head := "ab/c"[..3];
      assert head == "ab/" && head[0] == 'a';
      assert head[..2] == "ab" && RStripSlashes("ab") == "ab";
    }
    assert Dirname(files[1]) == "";
    assert Dirnames(files) == ["ab", ""];
    assert CommonPrefix(Dirnames(files)) == "";
    assert AllSlashAt(files, 0) == Ok(false);
    assert DropEach(files, 0) == files;
  }

  /** The common prefix of the dirnames is a prefix of each dirname. */
  lemma PrefixOfDirnames(files: seq<string>)
    requires |files| >= 1
    ensures forall k :: 0 <= k < |files| ==> CommonPrefix(Dirnames(files)) <= Dirname(files[k])
  {
    var dirs := Dirnames(files);
    forall k | 0 <= k < |files|
      ensures CommonPrefix(dirs) <= Dirname(files[k])
    {
      assert CommonPrefix(dirs) <= dirs[k];
    }
  }

  /** The prefix `get_common_prefix` returns is the longest common prefix of the directories. */
  lemma GetCommonPrefixLongest(files: seq<string>, q: string)
    requires !NoNames(files) && GetCommonPrefix(files).Ok?
    requires forall k :: 0 <= k < |files| ==> q <= Dirname(files[k])
    ensures q <= GetCommonPrefix(files).value.0
  {
    var dirs := Dirnames(files);
    assert forall k :: 0 <= k < |dirs| ==> q <= dirs[k];
    CommonPrefixLongest(dirs, q);
  }

  // ---------------------------------------------------------------- valid_files

  /** The blacklist of `valid_files`: macOS resource-fork entries. */
  predicate Blacklisted(f: string) {
    Contains(f, "__MACOSX")
  }

  /** The names that are not blacklisted, in their original order. */
  function DropBlacklisted(files: seq<string>): (r: seq<string>)
    ensures forall f :: f in r <==> f in files && !Blacklisted(f)
    ensures |r| <= |files|
    decreases |files|
  {
    if files == [] then []
    else (if Blacklisted(files[0]) then [] else [files[0]]) + DropBlacklisted(files[1..])
  }

  /** Dropping blacklisted names keeps the relative order of the remaining ones. */
  lemma {:induction false} DropBlacklistedAppend(a: seq<string>, b: seq<string>)
    ensures DropBlacklisted(a + b) == DropBlacklisted(a) + DropBlacklisted(b)
    decreases |a|
  {
    if a != [] {
      assert (a + b)[1..] == a[1..] + b;
      DropBlacklistedAppend(a[1..], b);
    } else {
      assert a + b == b;
    }
  }

  /** `valid_files`: refuses a mix of absolute and relative names, then drops blacklisted ones. */
  function ValidFiles(files: seq<string>): (r: Result<seq<string>, FileError>)
    ensures r.Err? <==> (exists f :: f in files && IsAbs(f)) && (exists f :: f in files && !IsAbs(f))
    ensures r.Err? ==> r.error == MixedPaths
    ensures r.Ok? ==> forall f :: f in r.value <==> f in files && !Blacklisted(f)
    ensures r.Ok? ==> r.value == DropBlacklisted(files)
  {
    if (exists f :: f in files && IsAbs(f)) && !(forall f :: f in files ==> IsAbs(f)) then Err(MixedPaths)
    else Ok(DropBlacklisted(files))
  }

  // ---------------------------------------------------------------- unzip_archive (names only)

  /** The relative names whose basename is non-empty, in order. */
  function WithBasename(rel: seq<string>): (r: seq<string>)
    ensures forall f :: f in r <==> f in rel && Basename(f) != ""
    ensures |r| <= |rel|
    ensures |rel| == 1 ==> r == (if Basename(rel[0]) != "" then rel else [])
    decreases |rel|
  {
    if rel == [] then []
    else (if Basename(rel[0]) != "" then [rel[0]] else []) + WithBasename(rel[1..])
  }

  /** The filter keeps order and multiplicity: filtering a concatenation concatenates the filtered parts. */
  lemma {:induction false} WithBasenameAppend(a: seq<string>, b: seq<string>)
    ensures WithBasename(a + b) == WithBasename(a) + WithBasename(b)
    decreases |a|
  {
    if a != [] {
      var rest := a[1..];
      assert a == [a[0]] + rest && a + b == [a[0]] + (rest + b);
      WithBasenameCons(a[0], rest);
      WithBasenameCons(a[0], rest + b);
      WithBasenameAppend(rest, b);
    } else {
      assert a + b == b;
    }
  }

  /** One unfolding of the filter at the front of a list. */
  lemma WithBasenameCons(x: string, s: seq<string>)
    ensures WithBasename([x] + s) == (if Basename(x) != "" then [x] else []) + WithBasename(s)
  {
    assert ([x] + s)[1..] == s;
  }

  /**
   * The names `unzip_archive` writes and returns: the archive's names, checked
   * by `valid_files`, made relative by `get_common_prefix`, without the
   * directory entries (those whose basename is empty).
   */
  function UnzipNames(namelist: seq<string>): (r: Result<seq<string>, FileError>)
    ensures r.Ok? <==> ValidFiles(namelist).Ok? && GetCommonPrefix(ValidFiles(namelist).value).Ok?
    ensures r.Ok? ==> forall f :: f in r.value <==>
              f in GetCommonPrefix(ValidFiles(namelist).value).value.1 && f != "" && f[|f| - 1] != '/'
    ensures r.Ok? ==> r.value == WithBasename(GetCommonPrefix(ValidFiles(namelist).value).value.1)
  {
    match ValidFiles(namelist)
    case Err(e) => Err(e)
    case Ok(names) =>
      match GetCommonPrefix(names)
      case Err(e) => Err(e)
      case Ok((_, rel)) =>
        forall f | f in rel ensures Basename(f) != "" <==> f != "" && f[|f| - 1] != '/' {
          BasenameEmpty(f);
        }
        Ok(WithBasename(rel))
  }

  // ---------------------------------------------------------------- is_mounted

  /** What running `/bin/mountpoint` on a directory gives: its exit status, or an exception. */
  datatype ProbeResult = ExitStatus(code: int) | ProbeRaised

  /** The first path of the chain the probe reports as a mount point; "" on an exception or no match. */
  function FirstMount(chain: seq<string>, probe: string -> ProbeResult): (r: string)
    ensures r == "" || (r in chain && probe(r) == ExitStatus(0))
    ensures forall k :: 0 <= k < |chain| && NoMountBefore(chain, probe, k) ==>
              (probe(chain[k]) == ExitStatus(0) ==> r == chain[k]) && (probe(chain[k]).ProbeRaised? ==> r == "")
    ensures NoMountBefore(chain, probe, |chain|) ==> r == ""
    decreases |chain|
  {
    if chain == [] then ""
    else match probe(chain[0])
      case ProbeRaised => ""
      case ExitStatus(code) =>
        if code == 0 then chain[0]
        else
          var r := FirstMount(chain[1..], probe);
          assert forall k :: 1 <= k <= |chain| && NoMountBefore(chain, probe, k) ==> NoMountBefore(chain[1..], probe, k - 1);
          r
  }

  /** Every path before index `k` was probed without an exception and is not a mount point. */
  predicate NoMountBefore(chain: seq<string>, probe: string -> ProbeResult, k: int)
    requires 0 <= k <= |chain|
  {
    forall j :: 0 <= j < k ==> probe(chain[j]).ExitStatus? && probe(chain[j]).code != 0
  }

  /**
   * `is_mounted` on the result of `os.path.abspath`: walks from the path up
   * through its ancestors, never testing the root, and returns the first one
   * the probe reports as a mount point.
   */
  method IsMounted(path: string, probe: string -> ProbeResult) returns (r: string)
    requires IsNormalAbs(path)
    ensures r == FirstMount(Ancestors(path), probe)
  {
    var current := path;
    while current != "/"
      invariant IsNormalAbs(current)
      invariant FirstMount(Ancestors(path), probe) == FirstMount(Ancestors(current), probe)
      decreases |current|
    {
      var status := probe(current);
      if status.ProbeRaised? {
        return "";
      }
      if status.code == 0 {
        return current;
      }
      DirnameNormal(current);
      assert Ancestors(current)[1..] == Ancestors(Dirname(current));
      current := Dirname(current);
    }
    r := "";
  }

  /** What `is_mounted` returns is never the root, and is the path itself or one of its ancestors. */
  lemma MountNeverRoot(path: string, probe: string -> ProbeResult)
    requires IsNormalAbs(path)
    ensures FirstMount(Ancestors(path), probe) != "/"
    ensures FirstMount(Ancestors(path), probe) <= path
    ensures FirstMount(Ancestors(path), probe) != "" ==> AncestorOf(path, FirstMount(Ancestors(path), probe))
  {
    AncestorsAreSlashPrefixes(path);
  }

  /**
   * The loop of `is_mounted` exactly as written, on any path, with at most
   * `fuel` iterations; None when the fuel runs out before the loop ends.
   */
  function WalkAsWritten(path: string, probe: string -> ProbeResult, fuel: nat): (r: Option<string>)
    ensures r.Some? ==> r.value == "" || probe(r.value) == ExitStatus(0)
    decreases fuel
  {
    if fuel == 0 then None
    else if path == "/" then Some("")
    else match probe(path)
      case ProbeRaised => Some("")
      case ExitStatus(code) =>
        if code == 0 then Some(path) else WalkAsWritten(Dirname(path), probe, fuel - 1)
  }

  /** One step of `FirstMount`: the head of the chain decides, or the rest is searched. */
  lemma FirstMountStep(chain: seq<string>, probe: string -> ProbeResult)
    requires chain != []
    ensures probe(chain[0]).ProbeRaised? ==> FirstMount(chain, probe) == ""
    ensures probe(chain[0]) == ExitStatus(0) ==> FirstMount(chain, probe) == chain[0]
    ensures probe(chain[0]).ExitStatus? && probe(chain[0]).code != 0 ==>
              FirstMount(chain, probe) == FirstMount(chain[1..], probe)
  {
  }

  /** On a normalised path the loop as written ends within `|path| + 1` steps with the modelled result. */
  lemma {:induction false} WalkAsWrittenAgrees(path: string, probe: string -> ProbeResult, fuel: nat)
    requires IsNormalAbs(path) && fuel > |path|
    ensures WalkAsWritten(path, probe, fuel) == Some(FirstMount(Ancestors(path), probe))
    decreases |path|
  {
    if path == "/" {
      assert Ancestors(path) == [];
    } else {
      var remaining: nat := fuel - 1;
      if probe(path).ExitStatus? && probe(path).code != 0 {
        DirnameNormal(path);
        WalkAsWrittenAgrees(Dirname(path), probe, remaining);
      }
      WalkAgreesOneStep(path, probe, fuel, remaining);
    }
  }

  /**
   * The inductive step of `WalkAsWrittenAgrees`: away from "/", the walk and
   * `FirstMount` stop together, or both go on to the dirname.
   */
  lemma WalkAgreesOneStep(path: string, probe: string -> ProbeResult, fuel: nat, remaining: nat)
    requires IsNormalAbs(path) && path != "/" && fuel == remaining + 1
    requires probe(path).ExitStatus? && probe(path).code != 0 ==>
               IsNormalAbs(Dirname(path))
               && WalkAsWritten(Dirname(path), probe, remaining) == Some(FirstMount(Ancestors(Dirname(path)), probe))
    ensures WalkAsWritten(path, probe, fuel) == Some(FirstMount(Ancestors(path), probe))
  {
    FirstMountOfAncestors(path, probe);
    WalkAsWrittenStep(path, probe, fuel, remaining);
  }

  /** `FirstMount` over the ancestors of a path decides on the path itself, or goes on with its dirname's ancestors. */
  lemma FirstMountOfAncestors(path: string, probe: string -> ProbeResult)
    requires IsNormalAbs(path) && path != "/"
    ensures IsNormalAbs(Dirname(path))
    ensures probe(path).ProbeRaised? ==> FirstMount(Ancestors(path), probe) == ""
    ensures probe(path) == ExitStatus(0) ==> FirstMount(Ancestors(path), probe) == path
    ensures probe(path).ExitStatus? && probe(path).code != 0 ==>
              FirstMount(Ancestors(path), probe) == FirstMount(Ancestors(Dirname(path)), probe)
  {
    DirnameNormal(path);
    var chain := Ancestors(path);
    assert chain[0] == path && chain[1..] == Ancestors(Dirname(path));
    FirstMountStep(chain, probe);
  }

  /** One iteration of the loop as written, away from "/". */
  lemma WalkAsWrittenStep(path: string, probe: string -> ProbeResult, fuel: nat, remaining: nat)
    requires path != "/" && fuel == remaining + 1
    ensures probe(path).ProbeRaised? ==> WalkAsWritten(path, probe, fuel) == Some("")
    ensures probe(path) == ExitStatus(0) ==> WalkAsWritten(path, probe, fuel) == Some(path)
    ensures probe(path).ExitStatus? && probe(path).code != 0 ==>
              WalkAsWritten(path, probe, fuel) == WalkAsWritten(Dirname(path), probe, remaining)
  {
  }


  /** A probe that reports no mount point anywhere. */
  function NeverMounted(path: string): ProbeResult
  {
    ExitStatus(1)
  }

  /** A probe that reports only the root, in any spelling, as a mount point. */
  function RootMounted(path: string): ProbeResult
  {
    if path != "" && AllSlashes(path) then ExitStatus(0) else ExitStatus(1)
  }

  /** "//" is its own dirname yet is not "/", so the loop's exit test never fires on it. */
  lemma DoubleSlashIsFixpoint()
    ensures Dirname("//") == "//" && "//" != "/"
    ensures Dirname("//x") == "//"
  {
    assert RFindSlash("//") == 1;
    assert AllSlashes("//");
    assert RFindSlash("//x"[..2]) == 1;
    assert RFindSlash("//x") == 1;
  }

  /** Started from "//", the loop as written never ends when the probe reports no mount point. */
  lemma {:induction false} DoubleSlashNeverEnds(fuel: nat)
    ensures WalkAsWritten("//", NeverMounted, fuel) == None
    decreases fuel
  {
    if fuel > 0 {
      DoubleSlashIsFixpoint();
      DoubleSlashNeverEnds(fuel - 1);
    }
  }

  /**
   * On "//x", which `os.path.abspath` leaves as it is, the loop as written
   * runs out of any fuel when nothing is mounted, and reports the root "//"
   * when the root is a mount point; on "/x" the root is never probed.
   */
  lemma DoubleSlashPathMisbehaves(fuel: nat)
    ensures WalkAsWritten("//x", NeverMounted, fuel) == None
    ensures WalkAsWritten("//x", RootMounted, 2) == Some("//")
    ensures WalkAsWritten("/x", RootMounted, 2) == Some("")
  {
    DoubleSlashIsFixpoint();
    if fuel > 0 {
      DoubleSlashNeverEnds(fuel - 1);
    }
    assert !AllSlashes("//x") by { assert "//x"[2] == 'x'; }
    assert !AllSlashes("/x") by { assert "/x"[1] == 'x'; }
    assert Dirname("/x") == "/" by { assert RFindSlash("/x") == 0; assert AllSlashes("/"); }
  }

  /** What `os.path.abspath` returns: a normalised absolute path, possibly spelt with exactly two leading slashes. */
  predicate IsAbsPathResult(p: string)
  {
    IsNormalAbs(p) || (|p| >= 2 && p[0] == '/' && p[1] == '/' && IsNormalAbs(p[1..]))
  }

  /** The same path with a leading "//" spelt as "/". */
  function OneLeadingSlash(p: string): (r: string)
    requires IsAbsPathResult(p)
    ensures IsNormalAbs(r)
    ensures r == p || r == p[1..]
  {
    if IsNormalAbs(p) then p else p[1..]
  }

  /**
   * `is_mounted` as evidently intended on every `abspath` result: the root is
   * recognised however it is spelt, so the walk always ends and never
   * reports the root.
   */
  method IsMountedAnyRoot(path: string, probe: string -> ProbeResult) returns (r: string)
    requires IsAbsPathResult(path)
    ensures r == FirstMount(Ancestors(OneLeadingSlash(path)), probe)
    ensures r == "" || !AllSlashes(r)
  {
    var p := OneLeadingSlash(path);
    r := IsMounted(p, probe);
    MountNeverRoot(p, probe);
    if r != "" {
      AncestorNotAllSlashes(p, r);
    }
  }

  // ---------------------------------------------------------------- get_inodes

  /** `get_inodes` from the `f_files` and `f_favail` fields of `statvfs`: (total, used, available). */
  function Inodes(total: int, available: int): (r: (int, int, int))
    ensures r.0 == total && r.2 == available
    ensures r.1 + r.2 == r.0
  {
    (total, total - available, available)
  }

  // ---------------------------------------------------------------- rename_extension (names only)

  /** `filename[:-len(old_ext)] + new_ext`. */
  function RenamedName(filename: string, oldExt: string, newExt: string): (r: string)
    ensures EndsWith(r, newExt)
    ensures 0 < |oldExt| && EndsWith(filename, oldExt) ==> r == filename[..|filename| - |oldExt|] + newExt
    ensures oldExt == "" ==> r == newExt
  {
    DropLast(filename, |oldExt|) + newExt
  }

  /** Renaming back with the extensions swapped restores the original name. */
  lemma RenameRoundTrip(filename: string, oldExt: string, newExt: string)
    requires 0 < |oldExt| && 0 < |newExt| && EndsWith(filename, oldExt)
    ensures RenamedName(RenamedName(filename, oldExt, newExt), newExt, oldExt) == filename
  {
    var stem := filename[..|filename| - |oldExt|];
    var renamed := stem + newExt;
    assert renamed[..|renamed| - |newExt|] == stem;
    assert stem + oldExt == filename;
  }

  /**
   * The (old, new) pairs `rename_extension` renames, for a list of file names:
   * the names matching `"*" + old_ext`, each mapped to its new name.
   */
  function RenamePlan(names: seq<string>, oldExt: string, newExt: string): (r: seq<(string, string)>)
    ensures |r| <= |names|
    ensures forall k :: 0 <= k < |r| ==> EndsWith(r[k].0, oldExt) && r[k].0 in names && r[k].1 == RenamedName(r[k].0, oldExt, newExt)
    ensures forall f :: f in names && EndsWith(f, oldExt) ==> (f, RenamedName(f, oldExt, newExt)) in r
    decreases |names|
  {
    if names == [] then []
    else
      var tail := names[1..];
      var rest := RenamePlan(tail, oldExt, newExt);
      var r := if EndsWith(names[0], oldExt) then [(names[0], RenamedName(names[0], oldExt, newExt))] + rest else rest;
      assert forall f :: f in tail ==> f in names;
      assert forall f :: f in names && EndsWith(f, oldExt) ==> (f, RenamedName(f, oldExt, newExt)) in r by {
        forall f | f in names && EndsWith(f, oldExt)
          ensures (f, RenamedName(f, oldExt, newExt)) in r
        {
          if f != names[0] {
            assert f in tail;
          }
        }
      }
      r
  }
}
