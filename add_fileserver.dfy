/**
 * The seeding script that makes sure a "Home" storage location and a default
 * file server exist. The two database tables are sequences in table order;
 * saving a new row appends it.
 */
module FileServerSeeding {
  import opened Results
  import opened Text

  /** A storage location row. */
  datatype Location = Location(name: string)

  /** A file server row; `location` is the position of its Location row. */
  datatype FileServer = FileServer(name: string, comments: string, filesPrefix: string, location: nat)

  /** Both tables at one moment. */
  datatype Tables = Tables(locations: seq<Location>, fileServers: seq<FileServer>)

  /** Every file server points at an existing location. */
  predicate Linked(t: Tables)
  {
    forall k :: 0 <= k < |t.fileServers| ==> t.fileServers[k].location < |t.locations|
  }

  /** Some location's name occurs inside `locStr` (Python's `l.name in locStr`). */
  predicate LocationCovered(locations: seq<Location>, locStr: string)
    ensures Location(locStr) in locations ==> LocationCovered(locations, locStr)
    ensures Location("") in locations ==> LocationCovered(locations, locStr)
    ensures locations == [] ==> !LocationCovered(locations, locStr)
  {
    exists k :: 0 <= k < |locations| && Contains(locStr, locations[k].name)
  }

  /** Some file server's name occurs inside `location`. */
  predicate ServerCovered(fileServers: seq<FileServer>, location: string)
    ensures (exists k :: 0 <= k < |fileServers| && fileServers[k].name == location) ==> ServerCovered(fileServers, location)
    ensures (exists k :: 0 <= k < |fileServers| && fileServers[k].name == "") ==> ServerCovered(fileServers, location)
    ensures fileServers == [] ==> !ServerCovered(fileServers, location)
  {
    exists k :: 0 <= k < |fileServers| && Contains(location, fileServers[k].name)
  }

  /** `add_location`: the Location table after the call. */
  function AddLocationSpec(locations: seq<Location>, locStr: string): (r: seq<Location>)
    ensures LocationCovered(locations, locStr) ==> r == locations
    ensures !LocationCovered(locations, locStr) ==> r == locations + [Location(locStr)]
    ensures LocationCovered(r, locStr)
  {
    if LocationCovered(locations, locStr) then locations
    else
      var r := locations + [Location(locStr)];
      ContainsSelf(locStr);
      assert Contains(locStr, r[|locations|].name);
      r
  }

  /** A second `add_location` with the same string changes nothing. */
  lemma AddLocationIdempotent(locations: seq<Location>, locStr: string)
    ensures AddLocationSpec(AddLocationSpec(locations, locStr), locStr) == AddLocationSpec(locations, locStr)
  {
  }

  /** The first location, from position `from` on, whose name contains "Home". */
  function FirstHomeFrom(locations: seq<Location>, from: nat): (r: Option<nat>)
    requires from <= |locations|
    ensures r.Some? ==> from <= r.value < |locations| && Contains(locations[r.value].name, "Home")
                        && forall k :: from <= k < r.value ==> !Contains(locations[k].name, "Home")
    ensures r.None? ==> forall k :: from <= k < |locations| ==> !Contains(locations[k].name, "Home")
    decreases |locations| - from
  {
    if from == |locations| then None
    else if Contains(locations[from].name, "Home") then Some(from)
    else FirstHomeFrom(locations, from + 1)
  }

  /** `add_fileserver`: the FileServer table after the call. */
  function AddFileServerSpec(t: Tables, location: string, directory: string): (r: seq<FileServer>)
    ensures ServerCovered(t.fileServers, location) ==> r == t.fileServers
    ensures FirstHomeFrom(t.locations, 0).None? ==> r == t.fileServers
    ensures !ServerCovered(t.fileServers, location) && FirstHomeFrom(t.locations, 0).Some? ==>
              r == t.fileServers + [FileServer(location, "", directory, FirstHomeFrom(t.locations, 0).value)]
    ensures Linked(t) ==> Linked(Tables(t.locations, r))
  {
    if ServerCovered(t.fileServers, location) then t.fileServers
    else match FirstHomeFrom(t.locations, 0)
      case None => t.fileServers
      case Some(i) => t.fileServers + [FileServer(location, "", directory, i)]
  }

  /** A second `add_fileserver` with the same name changes nothing. */
  lemma AddFileServerIdempotent(t: Tables, location: string, directory: string)
    ensures AddFileServerSpec(Tables(t.locations, AddFileServerSpec(t, location, directory)), location, directory)
            == AddFileServerSpec(t, location, directory)
  {
    var r := AddFileServerSpec(t, location, directory);
    if r != t.fileServers {
      ContainsSelf(location);
      assert Contains(location, r[|t.fileServers|].name);
    }
  }

  /** The script's main block: make sure "Home" exists, then add the file server. */
  function SeededSpec(t: Tables, serverName: string, directory: string): (r: Tables)
    ensures LocationCovered(r.locations, "Home")
    ensures |t.locations| <= |r.locations| <= |t.locations| + 1 && r.locations[..|t.locations|] == t.locations
    ensures |t.fileServers| <= |r.fileServers| <= |t.fileServers| + 1 && r.fileServers[..|t.fileServers|] == t.fileServers
    ensures Linked(t) ==> Linked(r)
  {
    var locations := AddLocationSpec(t.locations, "Home");
    assert Linked(t) ==> Linked(Tables(locations, t.fileServers));
    Tables(locations, AddFileServerSpec(Tables(locations, t.fileServers), serverName, directory))
  }

  /** Running the script a second time with the same arguments leaves both tables as they are. */
  lemma SeedIdempotent(t: Tables, serverName: string, directory: string)
    ensures SeededSpec(SeededSpec(t, serverName, directory), serverName, directory) == SeededSpec(t, serverName, directory)
  {
    var once := SeededSpec(t, serverName, directory);
    AddLocationIdempotent(t.locations, "Home");
    assert AddLocationSpec(once.locations, "Home") == once.locations;
    AddFileServerIdempotent(Tables(once.locations, t.fileServers), serverName, directory);
  }

  /** On empty tables the script creates "Home" and a file server linked to it. */
  lemma SeedEmpty(serverName: string, directory: string)
    ensures SeededSpec(Tables([], []), serverName, directory)
            == Tables([Location("Home")], [FileServer(serverName, "", directory, 0)])
  {
    ContainsSelf("Home");
    assert Contains([Location("Home")][0].name, "Home");
  }

  /**
   * The existence test is by substring: a location named "Ho" already
   * "covers" the string "Home", so no Home location is created, and since
   * "Ho" does not contain "Home" no file server is created either.
   */
  lemma SubstringBlocksHome(serverName: string, directory: string)
    ensures SeededSpec(Tables([Location("Ho")], []), serverName, directory) == Tables([Location("Ho")], [])
  {
    assert "Ho" <= "Home";
    assert Contains("Home", [Location("Ho")][0].name);
    assert !Contains("Ho", "Home");
  }

  /** A file server whose name is a prefix of the requested name (hence a substring of it) blocks the new row. */
  lemma PrefixServerNameBlocks(t: Tables, location: string, directory: string, k: nat)
    requires k < |t.fileServers| && t.fileServers[k].name <= location
    ensures AddFileServerSpec(t, location, directory) == t.fileServers
  {
    assert Contains(location, t.fileServers[k].name);
  }

  /** The two tables as the database holds them. */
  class Database {
    var locations: seq<Location>
    var fileServers: seq<FileServer>

    /** The tables as a value. */
    function State(): Tables
      reads this
    {
      Tables(locations, fileServers)
    }

    /** Empty tables. */
    constructor ()
      ensures State() == Tables([], [])
    {
      locations := [];
      fileServers := [];
    }

    /** `add_location`: scan the locations; if none is within `locStr`, save a new one. */
    method AddLocation(locStr: string)
      modifies this
      ensures locations == AddLocationSpec(old(locations), locStr)
      ensures fileServers == old(fileServers)
    {
      var i := 0;
      while i < |locations|
        invariant 0 <= i <= |locations|
        invariant locations == old(locations) && fileServers == old(fileServers)
        invariant forall k :: 0 <= k < i ==> !Contains(locStr, locations[k].name)
      {
        if Contains(locStr, locations[i].name) {
          return;
        }
        i := i + 1;
      }
      locations := locations + [Location(locStr)];
    }

    /**
     * `add_fileserver`: scan the file servers; if none is within `location`,
     * save one linked to the first location whose name contains "Home".
     */
    method AddFileServer(location: string, directory: string)
      modifies this
      ensures fileServers == AddFileServerSpec(old(State()), location, directory)
      ensures locations == old(locations)
    {
      var i := 0;
      while i < |fileServers|
        invariant 0 <= i <= |fileServers|
        invariant locations == old(locations) && fileServers == old(fileServers)
        invariant forall k :: 0 <= k < i ==> !Contains(location, fileServers[k].name)
      {
        if Contains(location, fileServers[i].name) {
          return;
        }
        i := i + 1;
      }
      var j := 0;
      while j < |locations|
        invariant 0 <= j <= |locations|
        invariant FirstHomeFrom(locations, 0) == FirstHomeFrom(locations, j)
      {
        if Contains(locations[j].name, "Home") {
          fileServers := fileServers + [FileServer(location, "", directory, j)];
          return;
        }
        j := j + 1;
      }
    }

    /**
     * The script's main block on its command-line arguments: with fewer than
     * two it stops with a usage error and touches nothing.
     */
    method Seed(args: seq<string>) returns (status: int)
      modifies this
      ensures |args| < 2 ==> status == 1 && State() == old(State())
      ensures |args| >= 2 ==> status == 0 && State() == SeededSpec(old(State()), args[0], args[1])
    {
      if |args| < 2 {
        return 1;
      }
      var serverName := args[0];
      var directory := args[1];
      AddLocation("Home");
      AddFileServer(serverName, directory);
      return 0;
    }
  }
}
