/**
 * The scan-directory logic of the multi-echo concatenation script around
 * `concatenate_scan`: which directories are multi-echo scans (`is_scan_ME`,
 * `find_scans`, `get_scan_dirs`), which scans are missing DICOM files
 * (`find_incomplete_dicom_sets`), which `nii_mdir` script an echo count
 * selects (`call_mdir`), and the name of the volume Dimon writes per echo.
 */
module ScanDirs {

  import opened Results
  import opened Text
  import opened Sorting
  import opened Lists
  import opened FileSystem

  /** The series code of a multi-echo scan in header tag 0019,109c. */
  const MeHeaderCode: string := "epiRTme"

  /** The `nii_mdir` script for 3-echo scans. */
  const NiiMdirScript: string := "concat_utils/nii_mdir_sdcme"

  /** The `nii_mdir` script for 2-echo scans. */
  const NiiMdir2Script: string := "concat_utils/nii_mdir2_sdcme"

  datatype Failure =
    | NoScanSource  // neither scan directories nor an exam directory was given
    | IndexError    // a scan directory without any DICOM file
    | NameError     // a name the code uses but never defines
    | ValueError    // an echo count without a concatenation script

  // ---------------------------------------------------------------------------
  // is_scan_ME, find_scans

  /**
   * `is_scan_ME`: a directory holds a multi-echo scan when its first `*.dcm`
   * file carries the multi-echo series code; a directory without one does not.
   */
  predicate IsScanME(disk: Disk, scanDir: Path)
  {
    var files := GlobIn(disk, scanDir, ".dcm");
    |files| > 0 && disk.header(files[0]).seriesCode == MeHeaderCode
  }

  /** The paths of a sequence of sub-directories. */
  function PathsOf(dirs: seq<Subdir>): (r: seq<Path>)
    ensures |r| == |dirs| && forall k :: 0 <= k < |r| ==> r[k] == dirs[k].path
  {
    if dirs == [] then [] else [dirs[0].path] + PathsOf(dirs[1..])
  }

  /** `find_scans`: the numbered directories below the exam that hold multi-echo scans, in walk order. */
  function FindScans(disk: Disk, examDir: Path): seq<Path>
  {
    Filter(PathsOf(Numbered(disk.walk(examDir))), d => IsScanME(disk, d))
  }

  /**
   * A path is found exactly when some walk entry lists a digit-named
   * directory that joins to it and that directory holds a multi-echo scan.
   */
  lemma FindScansMembers(disk: Disk, examDir: Path, p: Path)
    ensures p in FindScans(disk, examDir) <==>
            IsScanME(disk, p) &&
            exists d :: d in Numbered(disk.walk(examDir)) && d.path == p
  {
    var dirs := Numbered(disk.walk(examDir));
    FilterMembers(PathsOf(dirs), d => IsScanME(disk, d), p);
    if p in PathsOf(dirs) {
      var k :| 0 <= k < |dirs| && PathsOf(dirs)[k] == p;
      assert dirs[k] in dirs;
    }
    if exists d :: d in dirs && d.path == p {
      var d :| d in dirs && d.path == p;
      var k :| 0 <= k < |dirs| && dirs[k] == d;
      assert PathsOf(dirs)[k] == p;
    }
  }

  // ---------------------------------------------------------------------------
  // get_scan_dirs

  /** The `scan_dirs` argument: a single path or a list of paths. */
  datatype ScanDirsArg = Single(dir: Path) | Many(dirs: seq<Path>)

  /** A value that is not a list is wrapped into a one-element list. */
  function AsList(arg: ScanDirsArg): (r: seq<Path>)
    ensures arg.Single? ==> r == [arg.dir]
    ensures arg.Many? ==> r == arg.dirs
  {
    match arg
    case Single(d) => [d]
    case Many(ds) => ds
  }

  /**
   * `get_scan_dirs`: the given directories (only the multi-echo ones when
   * filtering), or, when none are given, the sorted multi-echo scans of the
   * exam directory; with neither, an error.
   */
  function GetScanDirs(disk: Disk, examDir: Option<Path>, scanDirs: ScanDirsArg, filter: bool): Result<seq<Path>, Failure>
  {
    var dirs := AsList(scanDirs);
    if |dirs| == 0 then
      if examDir.None? then Err(NoScanSource)
      else Ok(SortBy(FindScans(disk, examDir.value), StrLe))
    else if filter then Ok(Filter(dirs, d => IsScanME(disk, d)))
    else Ok(dirs)
  }

  /** The outcome of `get_scan_dirs`, case by case. */
  lemma GetScanDirsCases(disk: Disk, examDir: Option<Path>, scanDirs: ScanDirsArg, filter: bool)
    ensures var r := GetScanDirs(disk, examDir, scanDirs, filter);
            && (r.Err? <==> AsList(scanDirs) == [] && examDir.None?)
            && (r.Ok? && AsList(scanDirs) == [] ==>
                  SortedBy(r.value, StrLe)
                  && multiset(r.value) == multiset(FindScans(disk, examDir.value))
                  && forall k :: 0 <= k < |r.value| ==> IsScanME(disk, r.value[k]))
            && (AsList(scanDirs) != [] && !filter ==> r == Ok(AsList(scanDirs)))
            && (AsList(scanDirs) != [] && filter ==>
                  r.Ok? && forall p :: p in r.value <==> p in AsList(scanDirs) && IsScanME(disk, p))
  {
    var dirs := AsList(scanDirs);
    var r := GetScanDirs(disk, examDir, scanDirs, filter);
    if dirs == [] && examDir.Some? {
      var found := FindScans(disk, examDir.value);
      StrLePreorder();
      SortBySorted(found, StrLe);
      SortByPermutes(found, StrLe);
      forall k | 0 <= k < |r.value| ensures IsScanME(disk, r.value[k]) {
        assert r.value[k] in multiset(found);
        FilterMembers(PathsOf(Numbered(disk.walk(examDir.value))), d => IsScanME(disk, d), r.value[k]);
      }
    }
    if dirs != [] && filter {
      forall p ensures p in r.value <==> p in dirs && IsScanME(disk, p) {
        FilterMembers(dirs, d => IsScanME(disk, d), p);
      }
    }
  }

  // ---------------------------------------------------------------------------
  // find_incomplete_dicom_sets

  /** The files the completeness test counts: `glob(os.path.join(scan_dir, '*dcm'))`. */
  function DicomFiles(disk: Disk, scanDir: Path): seq<Path>
  {
    GlobIn(disk, scanDir, "dcm")
  }

  /** The header of the first file does not account for the files present: slices times volumes differ from the count. */
  predicate Incomplete(disk: Disk, scanDir: Path)
    requires |DicomFiles(disk, scanDir)| > 0
  {
    var files := DicomFiles(disk, scanDir);
    var h := disk.header(files[0]);
    h.volumes * h.slicesPerVolume != |files|
  }

  /** Every directory holds at least one `*dcm` file, so its first header can be read. */
  predicate AllReadable(disk: Disk, dirs: seq<Path>)
  {
    forall k :: 0 <= k < |dirs| ==> |DicomFiles(disk, dirs[k])| > 0
  }

  /**
   * The loop of `find_incomplete_dicom_sets` as written: the directory without
   * DICOM files fails on `files[0]`, and the first incomplete scan fails on
   * the undefined name it yields.
   */
  function IncompleteAmongAsWritten(disk: Disk, dirs: seq<Path>): (r: Result<seq<Path>, Failure>)
  {
    if dirs == [] then Ok([])
    else if |DicomFiles(disk, dirs[0])| == 0 then Err(IndexError)
    else if Incomplete(disk, dirs[0]) then Err(NameError)
    else IncompleteAmongAsWritten(disk, dirs[1..])
  }

  /** As written, the loop never reports a scan: it either finds none incomplete or fails. */
  lemma {:induction false} AsWrittenNeverReports(disk: Disk, dirs: seq<Path>)
    ensures IncompleteAmongAsWritten(disk, dirs).Ok? ==> IncompleteAmongAsWritten(disk, dirs).value == []
    ensures AllReadable(disk, dirs) && (exists k :: 0 <= k < |dirs| && Incomplete(disk, dirs[k]))
            ==> IncompleteAmongAsWritten(disk, dirs) == Err(NameError)
    ensures AllReadable(disk, dirs) && (forall k :: 0 <= k < |dirs| ==> !Incomplete(disk, dirs[k]))
            ==> IncompleteAmongAsWritten(disk, dirs) == Ok([])
  {
    if dirs != [] {
      AsWrittenNeverReports(disk, dirs[1..]);
      if AllReadable(disk, dirs) && exists k :: 0 <= k < |dirs| && Incomplete(disk, dirs[k]) {
        var k :| 0 <= k < |dirs| && Incomplete(disk, dirs[k]);
        if !Incomplete(disk, dirs[0]) {
          assert dirs[1..][k - 1] == dirs[k];
        }
      }
      if AllReadable(disk, dirs) {
        assert AllReadable(disk, dirs[1..]) by {
          forall k | 0 <= k < |dirs[1..]| ensures |DicomFiles(disk, dirs[1..][k])| > 0 {
            assert dirs[1..][k] == dirs[k + 1];
          }
        }
      }
    }
  }

  /** The loop as intended: it yields each scan directory whose DICOM count is off. */
  function IncompleteAmong(disk: Disk, dirs: seq<Path>): (r: Result<seq<Path>, Failure>)
    ensures r.Ok? <==> AllReadable(disk, dirs)
    ensures r.Ok? ==> r.value == Filter(dirs, d => |DicomFiles(disk, d)| > 0 && Incomplete(disk, d))
  {
    if dirs == [] then Ok([])
    else if |DicomFiles(disk, dirs[0])| == 0 then Err(IndexError)
    else
      var rest := IncompleteAmong(disk, dirs[1..]);
      if rest.Err? then rest
      else if Incomplete(disk, dirs[0]) then Ok([dirs[0]] + rest.value)
      else rest
  }

  /** With every header readable, the intended loop reports exactly the incomplete scans. */
  lemma IncompleteAmongReports(disk: Disk, dirs: seq<Path>, p: Path)
    requires AllReadable(disk, dirs)
    ensures IncompleteAmong(disk, dirs).Ok?
    ensures p in IncompleteAmong(disk, dirs).value <==> p in dirs && Incomplete(disk, p)
  {
    FilterMembers(dirs, d => |DicomFiles(disk, d)| > 0 && Incomplete(disk, d), p);
  }

  /** The as-written loop succeeds exactly when the intended one has nothing to report. */
  lemma AsWrittenAgreesOnlyWhenComplete(disk: Disk, dirs: seq<Path>)
    requires AllReadable(disk, dirs)
    ensures IncompleteAmongAsWritten(disk, dirs).Ok? <==> IncompleteAmong(disk, dirs) == Ok([])
  {
    AsWrittenNeverReports(disk, dirs);
    var keep := (d: Path) => |DicomFiles(disk, d)| > 0 && Incomplete(disk, d);
    if forall k :: 0 <= k < |dirs| ==> !Incomplete(disk, dirs[k]) {
      FilterNone(dirs, keep);
    } else {
      var k :| 0 <= k < |dirs| && Incomplete(disk, dirs[k]);
      FilterMembers(dirs, keep, dirs[k]);
    }
  }

  /** `find_incomplete_dicom_sets`, as intended, over the directories `get_scan_dirs` selects. */
  function FindIncompleteDicomSets(disk: Disk, examDir: Option<Path>, scanDirs: ScanDirsArg): (r: Result<seq<Path>, Failure>)
    ensures r.Ok? ==> forall k :: 0 <= k < |r.value| ==> |DicomFiles(disk, r.value[k])| > 0 && Incomplete(disk, r.value[k])
  {
    match GetScanDirs(disk, examDir, scanDirs, true)
    case Err(e) => Err(e)
    case Ok(dirs) => IncompleteAmong(disk, dirs)
  }

  /** A multi-echo scan has a `*.dcm` file, hence a `*dcm` file whose header can be read. */
  lemma MultiEchoReadable(disk: Disk, scanDir: Path)
    requires IsScanME(disk, scanDir)
    ensures |DicomFiles(disk, scanDir)| > 0
  {
    DotDcmWithinDcm(scanDir, disk.names(scanDir));
  }

  /**
   * Over the directories `get_scan_dirs` selects, every header can be read:
   * the search fails only when there is nothing to search, and then reports
   * exactly the incomplete scans among them.
   */
  lemma FindIncompleteReports(disk: Disk, examDir: Option<Path>, scanDirs: ScanDirsArg, p: Path)
    ensures var r := FindIncompleteDicomSets(disk, examDir, scanDirs);
            var dirs := GetScanDirs(disk, examDir, scanDirs, true);
            && (r.Ok? <==> dirs.Ok?)
            && (r.Ok? ==> (p in r.value <==> p in dirs.value && |DicomFiles(disk, p)| > 0 && Incomplete(disk, p)))
  {
    GetScanDirsCases(disk, examDir, scanDirs, true);
    var dirs := GetScanDirs(disk, examDir, scanDirs, true);
    if dirs.Ok? {
      forall k | 0 <= k < |dirs.value| ensures |DicomFiles(disk, dirs.value[k])| > 0 {
        assert IsScanME(disk, dirs.value[k]);
        MultiEchoReadable(disk, dirs.value[k]);
      }
      IncompleteAmongReports(disk, dirs.value, p);
    }
  }

  // ---------------------------------------------------------------------------
  // call_mdir's echo-count gate and the Dimon output name

  /** The concatenation script for an echo count: only 2 and 3 echoes have one. */
  function ConcatScriptFor(echoes: int): (r: Result<string, Failure>)
    ensures r.Ok? <==> echoes == 2 || echoes == 3
    ensures r.Err? ==> r.error == ValueError
  {
    if echoes == 2 then Ok(NiiMdir2Script)
    else if echoes == 3 then Ok(NiiMdirScript)
    else Err(ValueError)
  }

  /** The two supported echo counts select different scripts. */
  lemma ScriptIdentifiesEchoes(a: int, b: int)
    requires ConcatScriptFor(a).Ok? && ConcatScriptFor(a) == ConcatScriptFor(b)
    ensures a == b
  {
    assert |NiiMdirScript| != |NiiMdir2Script|;
  }

  /** `'run{scan:04d}.e{echo:02d}'`: the prefix Dimon writes the volume of one echo under. */
  function VolumeName(scan: nat, echo: nat): (r: string)
    ensures |r| == 5 + (if |NatToString(scan)| >= 4 then |NatToString(scan)| else 4)
                     + (if |NatToString(echo)| >= 2 then |NatToString(echo)| else 2)
  {
    "run" + FormatPadded(scan, 4) + ".e" + FormatPadded(echo, 2)
  }

  /** Reads the scan and echo numbers back from a volume name. */
  function ParseVolumeName(name: string): Option<(nat, nat)>
  {
    match SplitLast(name, '.')
    case None => None
    case Some((head, tail)) =>
      if |head| > 3 && head[..3] == "run" && IsDigits(head[3..])
         && |tail| > 1 && tail[0] == 'e' && IsDigits(tail[1..])
      then Some((DigitsValue(head[3..]), DigitsValue(tail[1..])))
      else None
  }

  /** The name determines the scan and the echo, so no two echoes or scans share an output name. */
  lemma VolumeNameRoundTrip(scan: nat, echo: nat)
    ensures ParseVolumeName(VolumeName(scan, echo)) == Some((scan, echo))
  {
    var s, e := FormatPadded(scan, 4), FormatPadded(echo, 2);
    var head, tail := "run" + s, "e" + e;
    assert VolumeName(scan, echo) == head + ['.'] + tail;
    assert '.' !in tail by {
      forall k | 0 <= k < |tail| ensures tail[k] != '.' {
        if k > 0 { assert tail[k] == e[k - 1]; }
      }
    }
    SplitLastOf(head, '.', tail);
    assert head[3..] == s && tail[1..] == e;
  }

  lemma VolumeNameInjective(s1: nat, e1: nat, s2: nat, e2: nat)
    requires VolumeName(s1, e1) == VolumeName(s2, e2)
    ensures s1 == s2 && e1 == e2
  {
    VolumeNameRoundTrip(s1, e1);
    VolumeNameRoundTrip(s2, e2);
  }
}
