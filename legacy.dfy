/**
 * The stand-alone helpers of the first multi-echo concatenation script: which
 * numbered scans of an exam are multi-echo (`find_scans`), which of them are
 * missing DICOM files (`check_dcms`) or have no concatenated output yet
 * (`check_concat`), which script `call_mdir` runs for an echo count, what it
 * launches and prints, and the status markers `make_complete` leaves in the
 * exam's `medata` directory.
 */
module Legacy {

  import opened Results
  import opened Text
  import opened Sorting
  import opened Lists
  import opened FileSystem

  datatype Failure =
    | IndexError  // `files[0]` of a directory that holds no DICOM file
    | ValueError  // an echo count without a concatenation script

  /** The series code (tag 0019,109c) of a multi-echo acquisition. */
  const MultiEchoCode: string := "epiRTme"

  /** The exam sub-directory the concatenated volumes and the markers go to. */
  const MeSubdir: string := "medata"

  /** The concatenation script for 3-echo scans. */
  const ThreeEchoScript: string := "nii_mdir_sdcme"

  /** The concatenation script for 2-echo scans. */
  const TwoEchoScript: string := "nii_mdir2_sdcme"

  // ---------------------------------------------------------------------------
  // find_scans

  /** A directory holds at least one `*.dcm` file. */
  predicate HasDicoms(disk: Disk, dir: Path)
  {
    GlobIn(disk, dir, ".dcm") != []
  }

  /** The first `*.dcm` file of a directory says it belongs to a multi-echo series. */
  predicate IsMultiEcho(disk: Disk, dir: Path)
  {
    HasDicoms(disk, dir) && disk.header(GlobIn(disk, dir, ".dcm")[0]).seriesCode == MultiEchoCode
  }

  /**
   * The loop of `find_scans` over numbered sub-directories: the number of
   * each multi-echo one, in order; a directory without `*.dcm` files stops
   * it with an `IndexError`.
   */
  function MultiEchoNumbers(disk: Disk, dirs: seq<Subdir>): (r: Result<seq<nat>, Failure>)
    requires forall k :: 0 <= k < |dirs| ==> IsDigits(dirs[k].name)
    ensures r.Ok? ==> |r.value| <= |dirs|
  {
    if dirs == [] then Ok([])
    else if !HasDicoms(disk, dirs[0].path) then Err(IndexError)
    else
      assert IsDigits(dirs[0].name);
      var here := if IsMultiEcho(disk, dirs[0].path) then [DigitsValue(dirs[0].name)] else [];
      match MultiEchoNumbers(disk, dirs[1..])
      case Err(e) => Err(e)
      case Ok(rest) => Ok(here + rest)
  }

  /** It succeeds exactly when every directory holds a DICOM file. */
  lemma {:induction false} MultiEchoNumbersSucceeds(disk: Disk, dirs: seq<Subdir>)
    requires forall k :: 0 <= k < |dirs| ==> IsDigits(dirs[k].name)
    ensures MultiEchoNumbers(disk, dirs).Ok? <==> forall k :: 0 <= k < |dirs| ==> HasDicoms(disk, dirs[k].path)
  {
    if dirs != [] {
      MultiEchoNumbersSucceeds(disk, dirs[1..]);
      assert (forall k :: 0 <= k < |dirs| ==> HasDicoms(disk, dirs[k].path)) <==>
             HasDicoms(disk, dirs[0].path) && forall k :: 0 <= k < |dirs[1..]| ==> HasDicoms(disk, dirs[1..][k].path)
      by {
        assert forall k :: 0 < k < |dirs| ==> dirs[k] == dirs[1..][k - 1];
      }
    }
  }

  /** When it succeeds, it yields exactly the numbers of the multi-echo directories. */
  lemma {:induction false} MultiEchoNumbersMembers(disk: Disk, dirs: seq<Subdir>, n: nat)
    requires forall k :: 0 <= k < |dirs| ==> IsDigits(dirs[k].name)
    requires MultiEchoNumbers(disk, dirs).Ok?
    ensures n in MultiEchoNumbers(disk, dirs).value <==>
            exists k :: 0 <= k < |dirs| && IsMultiEcho(disk, dirs[k].path) && DigitsValue(dirs[k].name) == n
  {
    if dirs != [] {
      var rest := dirs[1..];
      MultiEchoNumbersMembers(disk, rest, n);
      if exists k :: 0 <= k < |dirs| && IsMultiEcho(disk, dirs[k].path) && DigitsValue(dirs[k].name) == n {
        var k :| 0 <= k < |dirs| && IsMultiEcho(disk, dirs[k].path) && DigitsValue(dirs[k].name) == n;
        if k > 0 {
          assert rest[k - 1] == dirs[k];
        }
      }
      if n in MultiEchoNumbers(disk, rest).value {
        var k :| 0 <= k < |rest| && IsMultiEcho(disk, rest[k].path) && DigitsValue(rest[k].name) == n;
        assert dirs[k + 1] == rest[k];
      }
    }
  }

  /** `find_scans(exam)`, drained: the multi-echo scan numbers under `exam`, in walk order. */
  function FindScans(disk: Disk, exam: Path): Result<seq<nat>, Failure>
  {
    MultiEchoNumbers(disk, Numbered(disk.walk(exam)))
  }

  // ---------------------------------------------------------------------------
  // The `scans` argument

  /** A single scan, or a list of scans (empty for "all multi-echo scans"). */
  datatype ScansArg = Scan(scan: nat) | Scans(scans: seq<nat>)

  /** The order of plain `sorted` on scan numbers. */
  predicate ScanLe(a: nat, b: nat)
  {
    a <= b
  }

  /**
   * How `check_dcms` and `concatenate` read their `scans` argument: a single
   * scan is wrapped in a list; an empty list stands for every multi-echo scan
   * of the exam, sorted.
   */
  function ScanList(disk: Disk, exam: Path, scans: ScansArg): Result<seq<nat>, Failure>
  {
    match scans
    case Scan(f) => Ok([f])
    case Scans(list) =>
      if list != [] then Ok(list)
      else match FindScans(disk, exam)
        case Err(e) => Err(e)
        case Ok(found) => Ok(SortBy(found, ScanLe))
  }

  lemma ScanListCases(disk: Disk, exam: Path, scans: ScansArg)
    ensures scans.Scan? ==> ScanList(disk, exam, scans) == Ok([scans.scan])
    ensures scans.Scans? && scans.scans != [] ==> ScanList(disk, exam, scans) == Ok(scans.scans)
    ensures scans == Scans([]) ==> (ScanList(disk, exam, scans).Ok? <==> FindScans(disk, exam).Ok?)
    ensures scans == Scans([]) && ScanList(disk, exam, scans).Ok? ==>
              var r := ScanList(disk, exam, scans).value;
              && multiset(r) == multiset(FindScans(disk, exam).value)
              && forall i, j :: 0 <= i < j < |r| ==> r[i] <= r[j]
  {
    if scans == Scans([]) && FindScans(disk, exam).Ok? {
      var found := FindScans(disk, exam).value;
      assert TotalPreorder(ScanLe);
      SortBySorted(found, ScanLe);
      SortByPermutes(found, ScanLe);
    }
  }

  // ---------------------------------------------------------------------------
  // check_dcms

  /** `os.path.join(exam, str(f).zfill(4))`. */
  function ScanDir(exam: Path, f: nat): Path
  {
    PathJoin(exam, FormatPadded(f, 4))
  }

  /** The files `glob(os.path.join(scan_dir, '*dcm'))` finds. */
  function ScanDicoms(disk: Disk, exam: Path, f: nat): seq<Path>
  {
    GlobIn(disk, ScanDir(exam, f), "dcm")
  }

  /**
   * A scan whose prescription (slices per volume times volumes, read from its
   * first DICOM file) does not match the number of its DICOM files: it was
   * stopped during acquisition.
   */
  predicate Incomplete(disk: Disk, exam: Path, f: nat)
  {
    var files := ScanDicoms(disk, exam, f);
    files != [] && disk.header(files[0]).volumes * disk.header(files[0]).slicesPerVolume != |files|
  }

  /** The loop of `check_dcms`: the incomplete scans, in order; a scan without DICOM files is an `IndexError`. */
  function IncompleteAmong(disk: Disk, exam: Path, scans: seq<nat>): (r: Result<seq<nat>, Failure>)
    ensures r.Ok? ==> |r.value| <= |scans|
  {
    if scans == [] then Ok([])
    else if ScanDicoms(disk, exam, scans[0]) == [] then Err(IndexError)
    else
      var here := if Incomplete(disk, exam, scans[0]) then [scans[0]] else [];
      match IncompleteAmong(disk, exam, scans[1..])
      case Err(e) => Err(e)
      case Ok(rest) => Ok(here + rest)
  }

  /** Every scan has DICOM files. */
  predicate AllHaveDicoms(disk: Disk, exam: Path, scans: seq<nat>)
  {
    forall k :: 0 <= k < |scans| ==> ScanDicoms(disk, exam, scans[k]) != []
  }

  /**
   * The loop succeeds exactly when every scan has DICOM files, and then it
   * keeps exactly the incomplete scans, in their order.
   */
  lemma {:induction false} IncompleteAmongFilters(disk: Disk, exam: Path, scans: seq<nat>)
    ensures IncompleteAmong(disk, exam, scans).Ok? <==> AllHaveDicoms(disk, exam, scans)
    ensures IncompleteAmong(disk, exam, scans).Ok? ==>
              IncompleteAmong(disk, exam, scans).value == Filter(scans, f => Incomplete(disk, exam, f))
  {
    if scans != [] {
      IncompleteAmongFilters(disk, exam, scans[1..]);
      if AllHaveDicoms(disk, exam, scans) {
        assert AllHaveDicoms(disk, exam, scans[1..]) by {
          forall k | 0 <= k < |scans[1..]| ensures ScanDicoms(disk, exam, scans[1..][k]) != [] {
            assert scans[1..][k] == scans[k + 1];
          }
        }
      }
      if AllHaveDicoms(disk, exam, scans[1..]) && ScanDicoms(disk, exam, scans[0]) != [] {
        forall k | 0 <= k < |scans| ensures ScanDicoms(disk, exam, scans[k]) != [] {
          if k > 0 {
            assert scans[k] == scans[1..][k - 1];
          }
        }
      }
    }
  }

  /** `check_dcms(exam, scans)`, drained. */
  function CheckDcms(disk: Disk, exam: Path, scans: ScansArg): Result<seq<nat>, Failure>
  {
    match ScanList(disk, exam, scans)
    case Err(e) => Err(e)
    case Ok(list) => IncompleteAmong(disk, exam, list)
  }

  /**
   * A scan is reported exactly when it is among the scans checked and its
   * DICOM count differs from its prescription.
   */
  lemma CheckDcmsReports(disk: Disk, exam: Path, scans: ScansArg, f: nat)
    requires CheckDcms(disk, exam, scans).Ok?
    ensures f in CheckDcms(disk, exam, scans).value <==>
              && f in ScanList(disk, exam, scans).value
              && var files := ScanDicoms(disk, exam, f);
                 files != [] && disk.header(files[0]).volumes * disk.header(files[0]).slicesPerVolume != |files|
  {
    var list := ScanList(disk, exam, scans).value;
    IncompleteAmongFilters(disk, exam, list);
    FilterMembers(list, f => Incomplete(disk, exam, f), f);
  }

  // ---------------------------------------------------------------------------
  // check_concat

  /** `'run{0}.e0{1}.nii'.format(str(f).zfill(2), str(echoes))`: the last echo of a concatenated scan. */
  function ConcatenatedName(f: nat, echoes: nat): string
  {
    "run" + FormatPadded(f, 2) + ".e0" + NatToString(echoes) + ".nii"
  }

  /** Reads the scan and echo numbers back from such a name. */
  function ParseConcatenatedName(name: string): Option<(nat, nat)>
  {
    match SplitLast(name, '.')
    case None => None
    case Some((stem, ext)) =>
      if ext != "nii" then None
      else match SplitLast(stem, '.')
        case None => None
        case Some((run, echo)) =>
          if |run| > 3 && run[..3] == "run" && IsDigits(run[3..])
             && |echo| > 2 && echo[..2] == "e0" && IsDigits(echo[2..])
          then Some((DigitsValue(run[3..]), DigitsValue(echo[2..])))
          else None
  }

  lemma ConcatenatedNameRoundTrip(f: nat, echoes: nat)
    ensures ParseConcatenatedName(ConcatenatedName(f, echoes)) == Some((f, echoes))
  {
    var scan, echo := FormatPadded(f, 2), NatToString(echoes);
    var run, tail := "run" + scan, "e0" + echo;
    assert ConcatenatedName(f, echoes) == (run + ['.'] + tail) + ['.'] + "nii";
    SplitLastOf(run + ['.'] + tail, '.', "nii");
    assert '.' !in tail by {
      forall k | 0 <= k < |tail| ensures tail[k] != '.' {
        if k > 1 {
          assert tail[k] == echo[k - 2];
        }
      }
    }
    SplitLastOf(run, '.', tail);
    assert run[3..] == scan && tail[2..] == echo;
    DecimalRoundTrip(echoes);
  }

  /** Different scans have different output names, so one scan's output never stands in for another's. */
  lemma ConcatenatedNameInjective(f1: nat, f2: nat, echoes: nat)
    requires ConcatenatedName(f1, echoes) == ConcatenatedName(f2, echoes)
    ensures f1 == f2
  {
    ConcatenatedNameRoundTrip(f1, echoes);
    ConcatenatedNameRoundTrip(f2, echoes);
  }

  /** Where `check_concat` looks for that name: `exam/medata/<name>`. */
  function ConcatenatedPath(exam: Path, f: nat, echoes: nat): Path
  {
    PathJoin(PathJoin(exam, MeSubdir), ConcatenatedName(f, echoes))
  }

  /**
   * `check_concat(exam, echoes)`, drained: the multi-echo scans, in walk
   * order, whose last echo is missing from `medata` and which are complete.
   * The incomplete scans are listed first, so their errors come first.
   */
  function CheckConcat(disk: Disk, exam: Path, echoes: nat): Result<seq<nat>, Failure>
  {
    match CheckDcms(disk, exam, Scans([]))
    case Err(e) => Err(e)
    case Ok(incomplete) =>
      match FindScans(disk, exam)
      case Err(e) => Err(e)
      case Ok(found) => Ok(Filter(found, f => !disk.present(ConcatenatedPath(exam, f, echoes)) && f !in incomplete))
  }

  /**
   * It succeeds exactly when both scans of the exam succeed, and then
   * reports a scan exactly when it is multi-echo, its output is absent and
   * it is not incomplete.
   */
  lemma CheckConcatReports(disk: Disk, exam: Path, echoes: nat, f: nat)
    ensures CheckConcat(disk, exam, echoes).Ok? <==> CheckDcms(disk, exam, Scans([])).Ok? && FindScans(disk, exam).Ok?
    ensures CheckConcat(disk, exam, echoes).Ok? ==>
              (f in CheckConcat(disk, exam, echoes).value <==>
               && f in FindScans(disk, exam).value
               && !disk.present(ConcatenatedPath(exam, f, echoes))
               && f !in CheckDcms(disk, exam, Scans([])).value)
  {
    if CheckConcat(disk, exam, echoes).Ok? {
      var incomplete := CheckDcms(disk, exam, Scans([])).value;
      FilterMembers(FindScans(disk, exam).value,
                    f => !disk.present(ConcatenatedPath(exam, f, echoes)) && f !in incomplete, f);
    }
  }

  // ---------------------------------------------------------------------------
  // call_mdir

  /** The script `call_mdir` runs: one for 2 echoes, one for 3, none otherwise. */
  function ScriptFor(echoes: int): (r: Result<string, Failure>)
    ensures r.Ok? <==> echoes == 2 || echoes == 3
    ensures r.Err? ==> r.error == ValueError
  {
    if echoes == 2 then Ok(TwoEchoScript)
    else if echoes == 3 then Ok(ThreeEchoScript)
    else Err(ValueError)
  }

  /** The script names the echo count it was chosen for. */
  lemma ScriptForDistinguishes(a: int, b: int)
    requires ScriptFor(a).Ok? && ScriptFor(a) == ScriptFor(b)
    ensures a == b
  {
    assert |TwoEchoScript| != |ThreeEchoScript|;
  }

  /** What a call launches, in order, and what it writes to standard output. */
  datatype Session = Session(commands: seq<seq<string>>, output: string)

  /** `[SCRIPT, str(f), str(f)]` for each scan, in order. */
  function Commands(script: string, scans: seq<nat>): seq<seq<string>>
  {
    seq(|scans|, k requires 0 <= k < |scans| => [script, NatToString(scans[k]), NatToString(scans[k])])
  }

  /** Each command runs the script on one scan, named as first and last scan, in the order given. */
  lemma CommandsNameScans(script: string, scans: seq<nat>, k: nat)
    requires k < |scans|
    ensures |Commands(script, scans)| == |scans|
    ensures var c := Commands(script, scans)[k];
            |c| == 3 && c[0] == script && IsDigits(c[1]) && c[1] == c[2] && DigitsValue(c[1]) == scans[k]
  {
    DecimalRoundTrip(scans[k]);
  }

  /** The width of the message template `'Concatenating images for scan {}.'`, which the backspaces erase. */
  const TemplateWidth: nat := 33

  /** What one scan adds to the output. */
  function Progress(f: nat, interactive: bool, quiet: bool): string
  {
    if interactive && !quiet then Repeat('\U{8}', TemplateWidth) + "Concatenating images for scan " + FormatPadded(f, 2) + "."
    else if !quiet then "."
    else ""
  }

  /** The progress text of the scans, in order. */
  function ProgressText(scans: seq<nat>, interactive: bool, quiet: bool): string
  {
    if scans == [] then ""
    else ProgressText(scans[..|scans| - 1], interactive, quiet) + Progress(scans[|scans| - 1], interactive, quiet)
  }

  /** What the call writes once every scan is done. */
  function Closing(interactive: bool, quiet: bool): string
  {
    if interactive && !quiet then "\n" else if !quiet then "Done!\n" else ""
  }

  /**
   * `call_mdir(scans, echoes, interactive, quiet)`: an echo count without a
   * script is an error before anything runs; otherwise one command per scan,
   * in order, each preceded by its progress text, then the closing text.
   */
  method CallMdir(scans: seq<nat>, echoes: int, interactive: bool, quiet: bool) returns (r: Result<Session, Failure>)
    ensures r.Err? <==> ScriptFor(echoes).Err?
    ensures r.Ok? ==> r.value == Session(Commands(ScriptFor(echoes).value, scans),
                                         ProgressText(scans, interactive, quiet) + Closing(interactive, quiet))
  {
    var script := ScriptFor(echoes);
    if script.Err? {
      return Err(script.error);
    }
    var commands: seq<seq<string>> := [];
    var output := "";
    for i := 0 to |scans|
      invariant commands == Commands(script.value, scans[..i])
      invariant output == ProgressText(scans[..i], interactive, quiet)
    {
      var progress := Progress(scans[i], interactive, quiet);
      assert scans[..i + 1][..i] == scans[..i];
      output := output + progress;
      commands := commands + [[script.value, NatToString(scans[i]), NatToString(scans[i])]];
    }
    assert scans[..|scans|] == scans;
    if interactive && !quiet {
      output := output + "\n";
    } else if !quiet {
      output := output + "Done!\n";
    }
    r := Ok(Session(commands, output));
  }

  /** With `quiet`, nothing at all is written. */
  lemma {:induction false} QuietIsSilent(scans: seq<nat>, interactive: bool)
    ensures ProgressText(scans, interactive, true) + Closing(interactive, true) == ""
  {
    if scans != [] {
      QuietIsSilent(scans[..|scans| - 1], interactive);
    }
  }

  /** Called from a script and not quiet, one dot per scan is written, then `Done!`. */
  lemma {:induction false} DotPerScan(scans: seq<nat>)
    ensures var text := ProgressText(scans, false, false);
            |text| == |scans| && forall i :: 0 <= i < |text| ==> text[i] == '.'
  {
    if scans != [] {
      DotPerScan(scans[..|scans| - 1]);
    }
  }

  // ---------------------------------------------------------------------------
  // make_complete

  /** `'.incomplete_run{0}'.format(str(f).zfill(2))`. */
  function IncompleteMarker(f: nat): string
  {
    ".incomplete_run" + FormatPadded(f, 2)
  }

  /** Different scans get different incomplete markers. */
  lemma IncompleteMarkerInjective(f1: nat, f2: nat)
    requires IncompleteMarker(f1) == IncompleteMarker(f2)
    ensures f1 == f2
  {
    var n := |".incomplete_run"|;
    assert IncompleteMarker(f1)[n..] == FormatPadded(f1, 2);
    assert IncompleteMarker(f2)[n..] == FormatPadded(f2, 2);
  }

  /**
   * The files `make_complete` creates: when `exam/medata` exists, the status
   * marker and then one `.incomplete_run<NN>` per incomplete scan; otherwise
   * none.
   */
  function MarkerFiles(disk: Disk, exam: Path, marker: string, incomplete: seq<nat>): seq<Path>
  {
    var medata := PathJoin(exam, MeSubdir);
    if !disk.present(medata) then []
    else [PathJoin(medata, marker)]
         + seq(|incomplete|, k requires 0 <= k < |incomplete| => PathJoin(medata, IncompleteMarker(incomplete[k])))
  }

  /**
   * Without `medata` nothing is created; with it, the status marker comes
   * first and the `k`-th incomplete scan has the `k+1`-th file, which names
   * that scan and no other.
   */
  lemma MarkerFilesLayout(disk: Disk, exam: Path, marker: string, incomplete: seq<nat>, k: nat, g: nat)
    requires k < |incomplete|
    ensures var files := MarkerFiles(disk, exam, marker, incomplete);
            var medata := PathJoin(exam, MeSubdir);
            && (!disk.present(medata) ==> files == [])
            && (disk.present(medata) ==>
                  && |files| == |incomplete| + 1
                  && files[0] == PathJoin(medata, marker)
                  && (files[k + 1] == PathJoin(medata, IncompleteMarker(g)) <==> g == incomplete[k]))
  {
    var medata := PathJoin(exam, MeSubdir);
    if disk.present(medata) && PathJoin(medata, IncompleteMarker(incomplete[k])) == PathJoin(medata, IncompleteMarker(g)) {
      PathJoinInjective(medata, IncompleteMarker(incomplete[k]), IncompleteMarker(g));
      IncompleteMarkerInjective(incomplete[k], g);
    }
  }

  /** What `make_complete` decides and leaves behind. */
  datatype Completion = Completion(
    retry: Option<string>,   // the script of the second attempt, if there was one
    missed: seq<nat>,        // the scans still without output
    incomplete: seq<nat>,    // the scans missing DICOM files
    marker: string,          // `.failed` or `.complete`
    created: seq<Path>)      // the marker files written

  /** The status marker: `.failed` while some scan is still missed, `.complete` otherwise. */
  function StatusMarker(missed: seq<nat>): string
  {
    if |missed| > 0 then ".failed" else ".complete"
  }

  /** The second half of `make_complete`, on the disk as it is after the retry. */
  function Settle(disk: Disk, exam: Path, retry: Option<string>, missed: seq<nat>): Result<Completion, Failure>
  {
    match CheckDcms(disk, exam, Scans([]))
    case Err(e) => Err(e)
    case Ok(incomplete) =>
      var marker := StatusMarker(missed);
      Ok(Completion(retry, missed, incomplete, marker, MarkerFiles(disk, exam, marker, incomplete)))
  }

  /**
   * `make_complete`, with the retry launched for `retryEchoes` echoes: the
   * missed scans are computed; if there are any, the script is run on them
   * once (`rerun` gives the disk after running a script on a list of scans)
   * and they are computed again; then the incomplete scans and the markers.
   */
  function Completed(disk: Disk, rerun: (string, seq<nat>) -> Disk, exam: Path, echoes: nat, retryEchoes: int)
    : Result<Completion, Failure>
  {
    match CheckConcat(disk, exam, echoes)
    case Err(e) => Err(e)
    case Ok(first) =>
      if |first| == 0 then Settle(disk, exam, None, first)
      else match ScriptFor(retryEchoes)
        case Err(e) => Err(e)
        case Ok(script) =>
          var after := rerun(script, first);
          match CheckConcat(after, exam, echoes)
          case Err(e) => Err(e)
          case Ok(missed) => Settle(after, exam, Some(script), missed)
  }

  /** As written: the retry calls `call_mdir` without `echoes`, so it always runs the 3-echo script. */
  function MakeCompleteAsWritten(disk: Disk, rerun: (string, seq<nat>) -> Disk, exam: Path, echoes: nat)
    : (r: Result<Completion, Failure>)
    ensures CheckConcat(disk, exam, echoes).Ok? && |CheckConcat(disk, exam, echoes).value| > 0 && r.Ok? ==>
              r.value.retry == Some(ThreeEchoScript)
  {
    Completed(disk, rerun, exam, echoes, 3)
  }

  /** As intended: the retry runs the script for the exam's own echo count. */
  function MakeComplete(disk: Disk, rerun: (string, seq<nat>) -> Disk, exam: Path, echoes: nat)
    : (r: Result<Completion, Failure>)
    ensures CheckConcat(disk, exam, echoes).Ok? && |CheckConcat(disk, exam, echoes).value| > 0 ==>
              && (r.Ok? ==> r.value.retry == Some(if echoes == 2 then TwoEchoScript else ThreeEchoScript))
              && (echoes != 2 && echoes != 3 ==> r == Err(ValueError))
  {
    Completed(disk, rerun, exam, echoes, echoes)
  }

  /**
   * The status decision: the marker is `.failed` exactly when some scan is
   * still missed, an incomplete scan is never counted as missed, a retry
   * happens exactly when the first check missed something, and the files
   * created are the markers of the final state.
   */
  lemma CompletedStatus(disk: Disk, rerun: (string, seq<nat>) -> Disk, exam: Path, echoes: nat, retryEchoes: int)
    requires Completed(disk, rerun, exam, echoes, retryEchoes).Ok?
    ensures var c := Completed(disk, rerun, exam, echoes, retryEchoes).value;
            && (c.marker == ".failed" <==> |c.missed| > 0)
            && (c.marker == ".complete" <==> |c.missed| == 0)
            && (forall f :: f in c.missed ==> f !in c.incomplete)
            && (c.retry.Some? <==> |CheckConcat(disk, exam, echoes).value| > 0)
            && c.created == MarkerFiles(if c.retry.Some? then rerun(c.retry.value, CheckConcat(disk, exam, echoes).value) else disk,
                                        exam, c.marker, c.incomplete)
  {
    var first := CheckConcat(disk, exam, echoes).value;
    var now := if |first| == 0 then disk else rerun(ScriptFor(retryEchoes).value, first);
    var c := Completed(disk, rerun, exam, echoes, retryEchoes).value;
    assert c.missed == CheckConcat(now, exam, echoes).value;
    assert c.incomplete == CheckDcms(now, exam, Scans([])).value;
    forall f | f in c.missed ensures f !in c.incomplete {
      CheckConcatReports(now, exam, echoes, f);
    }
  }

  /** With missed scans in a 2-echo exam, the written retry runs a different script from the intended one. */
  lemma TwoEchoRetryDiffers(disk: Disk, rerun: (string, seq<nat>) -> Disk, exam: Path)
    requires CheckConcat(disk, exam, 2).Ok? && |CheckConcat(disk, exam, 2).value| > 0
    requires MakeCompleteAsWritten(disk, rerun, exam, 2).Ok? && MakeComplete(disk, rerun, exam, 2).Ok?
    ensures MakeCompleteAsWritten(disk, rerun, exam, 2).value.retry != MakeComplete(disk, rerun, exam, 2).value.retry
  {
    assert |TwoEchoScript| != |ThreeEchoScript|;
  }
}
