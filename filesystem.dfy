/**
 * What the multi-echo scripts observe of the file system and of the DICOM
 * headers, as values: the directory triples `os.walk(top, topdown=True)`
 * produces, the entry names of each directory in `os.listdir` order (which
 * `glob.glob` filters), whether a path exists, and the header fields read
 * from a DICOM file.
 */
module FileSystem {

  import opened Text

  type Path = string

  /** One `(dirpath, dirnames, filenames)` triple of `os.walk`; the file names are not used. */
  datatype WalkEntry = WalkEntry(dirpath: Path, dirnames: seq<string>)

  /**
   * The header fields the scripts read: the series code (tag 0019,109c), the
   * slices per volume (tag 0020,1002) and the number of volumes (tag 0020,0105).
   */
  datatype Header = Header(seriesCode: string, slicesPerVolume: int, volumes: int)

  /** The file system as the scripts see it at one moment. */
  datatype Disk = Disk(
    walk: Path -> seq<WalkEntry>,  // os.walk(top)
    names: Path -> seq<string>,    // os.listdir(dir)
    present: Path -> bool,         // os.path.exists(path)
    header: Path -> Header)        // the header of a DICOM file

  // ---------------------------------------------------------------------------
  // glob.glob(os.path.join(dir, '*' + suffix))

  predicate EndsWith(name: string, suffix: string)
  {
    |suffix| <= |name| && name[|name| - |suffix|..] == suffix
  }

  /** `*suffix` matches a name that ends in `suffix`; a leading `*` never matches a hidden name. */
  predicate GlobMatch(name: string, suffix: string)
  {
    name != [] && name[0] != '.' && EndsWith(name, suffix)
  }

  /** The paths `glob.glob(os.path.join(dir, '*' + suffix))` returns, in listing order. */
  function Glob(dir: Path, names: seq<string>, suffix: string): (r: seq<Path>)
    ensures |r| <= |names|
    ensures forall k :: 0 <= k < |r| ==> exists n :: n in names && GlobMatch(n, suffix) && r[k] == PathJoin(dir, n)
  {
    if names == [] then []
    else if GlobMatch(names[0], suffix) then [PathJoin(dir, names[0])] + Glob(dir, names[1..], suffix)
    else Glob(dir, names[1..], suffix)
  }

  /** The files of a directory that match `*suffix`, in listing order. */
  function GlobIn(disk: Disk, dir: Path, suffix: string): seq<Path>
  {
    Glob(dir, disk.names(dir), suffix)
  }

  /** A glob result is the directory joined with each matching name. */
  lemma {:induction false} GlobMembers(dir: Path, names: seq<string>, suffix: string, p: Path)
    ensures p in Glob(dir, names, suffix) <==>
            exists i :: 0 <= i < |names| && GlobMatch(names[i], suffix) && p == PathJoin(dir, names[i])
  {
    if names != [] {
      GlobMembers(dir, names[1..], suffix, p);
      if p in Glob(dir, names[1..], suffix) {
        var i :| 0 <= i < |names[1..]| && GlobMatch(names[1..][i], suffix) && p == PathJoin(dir, names[1..][i]);
        assert names[i + 1] == names[1..][i];
      }
      forall i | 1 <= i < |names| && GlobMatch(names[i], suffix) && p == PathJoin(dir, names[i])
        ensures p in Glob(dir, names[1..], suffix)
      {
        assert names[1..][i - 1] == names[i];
      }
    }
  }

  /** Every `*.dcm` match is also a `*dcm` match, so the looser pattern finds at least as many files. */
  lemma {:induction false} DotDcmWithinDcm(dir: Path, names: seq<string>)
    ensures |Glob(dir, names, ".dcm")| <= |Glob(dir, names, "dcm")|
  {
    if names != [] {
      DotDcmWithinDcm(dir, names[1..]);
      var n := names[0];
      if GlobMatch(n, ".dcm") {
        assert n[|n| - 3..] == n[|n| - 4..][1..];
      }
    }
  }

  // ---------------------------------------------------------------------------
  // The numbered sub-directories a walk visits

  /** A sub-directory seen during the walk: its joined path and its own name. */
  datatype Subdir = Subdir(path: Path, name: string)

  /** The sub-directories of one walk entry whose names pass `str.isdigit`, in order. */
  function NumberedIn(dirpath: Path, dirnames: seq<string>): (r: seq<Subdir>)
    ensures forall k :: 0 <= k < |r| ==> IsDigits(r[k].name) && r[k].path == PathJoin(dirpath, r[k].name)
  {
    if dirnames == [] then []
    else if IsDigits(dirnames[0]) then [Subdir(PathJoin(dirpath, dirnames[0]), dirnames[0])] + NumberedIn(dirpath, dirnames[1..])
    else NumberedIn(dirpath, dirnames[1..])
  }

  /** The numbered sub-directories of a whole walk, in the order the walk visits them. */
  function Numbered(walk: seq<WalkEntry>): (r: seq<Subdir>)
    ensures forall k :: 0 <= k < |r| ==> IsDigits(r[k].name)
  {
    if walk == [] then [] else NumberedIn(walk[0].dirpath, walk[0].dirnames) + Numbered(walk[1..])
  }

  lemma {:induction false} NumberedInMembers(dirpath: Path, dirnames: seq<string>, d: Subdir)
    ensures d in NumberedIn(dirpath, dirnames) <==>
            d.name in dirnames && IsDigits(d.name) && d.path == PathJoin(dirpath, d.name)
  {
    if dirnames != [] {
      NumberedInMembers(dirpath, dirnames[1..], d);
      assert dirnames == [dirnames[0]] + dirnames[1..];
    }
  }

  /**
   * The walk's numbered sub-directories are exactly the digit-named entries of
   * its `dirnames`, each joined to its `dirpath`.
   */
  lemma {:induction false} NumberedMembers(walk: seq<WalkEntry>, d: Subdir)
    ensures d in Numbered(walk) <==>
            exists i :: 0 <= i < |walk| && d.name in walk[i].dirnames && IsDigits(d.name)
                        && d.path == PathJoin(walk[i].dirpath, d.name)
  {
    if walk != [] {
      NumberedMembers(walk[1..], d);
      NumberedInMembers(walk[0].dirpath, walk[0].dirnames, d);
      if d in Numbered(walk[1..]) {
        var i :| 0 <= i < |walk[1..]| && d.name in walk[1..][i].dirnames && IsDigits(d.name)
                 && d.path == PathJoin(walk[1..][i].dirpath, d.name);
        assert walk[i + 1] == walk[1..][i];
      }
      forall i | 1 <= i < |walk| && d.name in walk[i].dirnames && IsDigits(d.name)
                 && d.path == PathJoin(walk[i].dirpath, d.name)
        ensures d in Numbered(walk[1..])
      {
        assert walk[1..][i - 1] == walk[i];
      }
    }
  }
}
