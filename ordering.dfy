/**
 * The multi-echo ordering engine of `concatenate_scan`: from the DICOM files of
 * one scan and the slice index read from each file's header, it groups the
 * files by slice index, orders each group by the file number in the file name,
 * derives the spatial-slice and time-point counts, splits the sorted distinct
 * slice indices into one contiguous block per echo, fills the
 * [echo][time][space] table of file paths and renders one manifest per echo.
 *
 * The specification is the function `Plan` (with `Manifests` on top of it);
 * `ConcatenateScan` is the imperative procedure, proved to compute it.
 */
module Ordering {

  import opened Results
  import opened Text
  import opened Sorting

  type Path = string
  type SliceIndex = int

  /** One DICOM file of the scan together with the slice index from its header. */
  datatype ScanFile = ScanFile(path: Path, index: SliceIndex)

  /** The ways `concatenate_scan` fails before it writes any manifest. */
  datatype ScanError =
    | ZeroDivision   // no echoes, or fewer distinct slice indices than echoes
    | NotDivisible   // the file count is not a multiple of the echo count
    | NoFileNumber   // a file name that the numbering pattern does not match
    | MissingRepeat  // a slice index with fewer files than there are time points

  // ---------------------------------------------------------------------------
  // The file number: the pattern `.*-([0-9]+)-[0-9a-zA-Z]+\.[Dd][Cc][Mm]$`

  predicate IsDcmExtension(e: string)
  {
    |e| == 4 && e[0] == '.' && (e[1] == 'D' || e[1] == 'd')
    && (e[2] == 'C' || e[2] == 'c') && (e[3] == 'M' || e[3] == 'm')
  }

  predicate AllAlnum(s: string)
  {
    forall i :: 0 <= i < |s| ==> IsAlnum(s[i])
  }

  /**
   * The number captured by the pattern in a name that does not end in a
   * newline. Neither the tag nor the number can hold a '-', so they sit after
   * the last and the second-to-last '-' before the extension; `.*` cannot cross
   * a newline, so the part before them must hold none.
   */
  function NumberInBody(body: string): Option<nat>
  {
    if |body| < 4 || !IsDcmExtension(body[|body| - 4..]) then None
    else match SplitLast(body[..|body| - 4], '-')
      case None => None
      case Some(p) =>
        if p.1 == [] || !AllAlnum(p.1) then None
        else match SplitLast(p.0, '-')
          case None => None
          case Some(q) => if IsDigits(q.1) && '\n' !in q.0 then Some(DigitsValue(q.1)) else None
  }

  /**
   * `int(re.match(pattern, name).group(1))`, or None where `re.match` finds no
   * match (the source then fails on `.group`). `$` also matches just before a
   * final newline.
   */
  function FileNumber(name: Path): Option<nat>
  {
    if name != [] && name[|name| - 1] == '\n' then NumberInBody(name[..|name| - 1])
    else NumberInBody(name)
  }

  /** A name of the form `<pre>-<digits>-<tag>.dcm` yields the value of its digits. */
  lemma NumberedName(pre: string, digits: string, tag: string, ext: string)
    requires '\n' !in pre && IsDigits(digits) && tag != [] && AllAlnum(tag) && IsDcmExtension(ext)
    ensures FileNumber(pre + ['-'] + digits + ['-'] + tag + ext) == Some(DigitsValue(digits))
  {
    var name := pre + ['-'] + digits + ['-'] + tag + ext;
    assert name[|name| - 1] == ext[3];
    assert name[|name| - 4..] == ext;
    assert name[..|name| - 4] == (pre + ['-'] + digits) + ['-'] + tag;
    assert '-' !in tag by {
      forall i | 0 <= i < |tag| ensures tag[i] != '-' { assert IsAlnum(tag[i]); }
    }
    SplitLastOf(pre + ['-'] + digits, '-', tag);
    assert '-' !in digits by {
      forall i | 0 <= i < |digits| ensures digits[i] != '-' { assert IsDigit(digits[i]); }
    }
    SplitLastOf(pre, '-', digits);
  }

  /** The file written for number `n` reads back as `n`. */
  lemma FileNumberRoundTrip(pre: string, n: nat, tag: string)
    requires '\n' !in pre && tag != [] && AllAlnum(tag)
    ensures FileNumber(pre + ['-'] + NatToString(n) + ['-'] + tag + ".dcm") == Some(n)
  {
    NumberedName(pre, NatToString(n), tag, ".dcm");
    DecimalRoundTrip(n);
  }

  /** Conversely, every name the pattern matches has that form. */
  lemma FileNumberShape(name: Path) returns (pre: string, digits: string, tag: string, ext: string, nl: string)
    requires FileNumber(name).Some?
    ensures name == pre + ['-'] + digits + ['-'] + tag + ext + nl
    ensures '\n' !in pre && IsDigits(digits) && tag != [] && AllAlnum(tag) && IsDcmExtension(ext)
    ensures nl == [] || nl == ['\n']
    ensures FileNumber(name) == Some(DigitsValue(digits))
  {
    var body := name;
    nl := [];
    if name != [] && name[|name| - 1] == '\n' {
      body := name[..|name| - 1];
      nl := ['\n'];
    }
    assert name == body + nl;
    ext := body[|body| - 4..];
    var p := SplitLast(body[..|body| - 4], '-').value;
    var q := SplitLast(p.0, '-').value;
    pre, digits, tag := q.0, q.1, p.1;
    assert body == body[..|body| - 4] + ext;
  }

  /** The sort key: the file number, for names that have one. */
  function FileKey(p: Path): int
  {
    match FileNumber(p)
    case Some(n) => n
    case None => -1
  }

  /** `sorted(..., key=fileNumberExtractor)` compares file numbers. */
  predicate ByFileNumber(a: Path, b: Path)
  {
    FileKey(a) <= FileKey(b)
  }

  lemma ByFileNumberPreorder()
    ensures TotalPreorder(ByFileNumber)
  {
  }

  // ---------------------------------------------------------------------------
  // Grouping by slice index (a Python dict: keys in insertion order)

  datatype IndexMapping = IndexMapping(order: seq<SliceIndex>, buckets: map<SliceIndex, seq<Path>>)

  ghost predicate WellFormed(m: IndexMapping)
  {
    && Distinct(m.order)
    && (forall k :: k in m.buckets <==> k in m.order)
    && (forall i :: 0 <= i < |m.order| ==> m.order[i] in m.buckets)
  }

  /** One step of the grouping loop: append the file to its index's bucket. */
  function AddFile(m: IndexMapping, f: ScanFile): IndexMapping
  {
    if f.index in m.buckets then m.(buckets := m.buckets[f.index := m.buckets[f.index] + [f.path]])
    else IndexMapping(m.order + [f.index], m.buckets[f.index := [f.path]])
  }

  /** The dict the grouping loop builds from the files, in input order. */
  function Group(files: seq<ScanFile>): IndexMapping
  {
    if files == [] then IndexMapping([], map[]) else AddFile(Group(files[..|files| - 1]), files[|files| - 1])
  }

  /** Reference definition of a bucket: the paths of the files with index `k`, in input order. */
  function PathsWithIndex(files: seq<ScanFile>, k: SliceIndex): seq<Path>
  {
    if files == [] then []
    else PathsWithIndex(files[..|files| - 1], k) + (if files[|files| - 1].index == k then [files[|files| - 1].path] else [])
  }

  function IndicesOf(files: seq<ScanFile>): set<SliceIndex>
  {
    set i | 0 <= i < |files| :: files[i].index
  }

  /** The total number of paths held in the buckets of `order`. */
  function SizeSum(order: seq<SliceIndex>, buckets: map<SliceIndex, seq<Path>>): nat
    requires forall i :: 0 <= i < |order| ==> order[i] in buckets
  {
    if order == [] then 0 else SizeSum(order[..|order| - 1], buckets) + |buckets[order[|order| - 1]]|
  }

  lemma {:induction false} SizeSumOther(order: seq<SliceIndex>, buckets: map<SliceIndex, seq<Path>>, k: SliceIndex, v: seq<Path>)
    requires forall i :: 0 <= i < |order| ==> order[i] in buckets
    requires k !in order
    ensures SizeSum(order, buckets[k := v]) == SizeSum(order, buckets)
  {
    if order != [] {
      SizeSumOther(order[..|order| - 1], buckets, k, v);
    }
  }

  lemma {:induction false} SizeSumGrow(order: seq<SliceIndex>, buckets: map<SliceIndex, seq<Path>>, k: SliceIndex, p: Path)
    requires forall i :: 0 <= i < |order| ==> order[i] in buckets
    requires Distinct(order) && k in order
    ensures SizeSum(order, buckets[k := buckets[k] + [p]]) == SizeSum(order, buckets) + 1
  {
    var init := order[..|order| - 1];
    assert Distinct(init);
    if order[|order| - 1] == k {
      assert k !in init;
      SizeSumOther(init, buckets, k, buckets[k] + [p]);
    } else {
      assert k in init;
      SizeSumGrow(init, buckets, k, p);
    }
  }

  /** One grouping step keeps the dict well formed and adds the file's index as a key. */
  lemma AddFileWellFormed(m: IndexMapping, f: ScanFile)
    requires WellFormed(m)
    ensures WellFormed(AddFile(m, f))
    ensures AddFile(m, f).buckets.Keys == m.buckets.Keys + {f.index}
    ensures |AddFile(m, f).buckets[f.index]| > 0
    ensures forall k :: k in m.buckets && k != f.index ==> AddFile(m, f).buckets[k] == m.buckets[k]
  {
    if f.index !in m.buckets {
      var o := m.order + [f.index];
      assert forall i :: 0 <= i < |m.order| ==> o[i] == m.order[i];
      assert f.index !in m.order;
    }
  }

  lemma IndicesSnoc(files: seq<ScanFile>)
    requires files != []
    ensures IndicesOf(files) == IndicesOf(files[..|files| - 1]) + {files[|files| - 1].index}
  {
    var init := files[..|files| - 1];
    assert forall i :: 0 <= i < |init| ==> files[i] == init[i];
  }

  lemma {:induction false} GroupWellFormed(files: seq<ScanFile>)
    ensures WellFormed(Group(files))
    ensures Group(files).buckets.Keys == IndicesOf(files)
    ensures forall k :: k in Group(files).buckets ==> |Group(files).buckets[k]| > 0
  {
    if files != [] {
      var init := files[..|files| - 1];
      GroupWellFormed(init);
      AddFileWellFormed(Group(init), files[|files| - 1]);
      IndicesSnoc(files);
    }
  }

  lemma {:induction false} GroupBuckets(files: seq<ScanFile>)
    ensures forall k :: k in Group(files).buckets ==> Group(files).buckets[k] == PathsWithIndex(files, k)
  {
    if files != [] {
      var init := files[..|files| - 1];
      var f := files[|files| - 1];
      GroupBuckets(init);
      GroupWellFormed(init);
      if f.index !in Group(init).buckets {
        NotInFilter(init, f.index);
      }
    }
  }

  lemma {:induction false} GroupSizes(files: seq<ScanFile>)
    ensures WellFormed(Group(files))
    ensures SizeSum(Group(files).order, Group(files).buckets) == |files|
  {
    GroupWellFormed(files);
    if files != [] {
      var init := files[..|files| - 1];
      var f := files[|files| - 1];
      GroupSizes(init);
      var m := Group(init);
      if f.index in m.buckets {
        SizeSumGrow(m.order, m.buckets, f.index, f.path);
      } else {
        SizeSumOther(m.order, m.buckets, f.index, [f.path]);
        var order' := m.order + [f.index];
        assert order'[..|order'| - 1] == m.order;
      }
    }
  }

  /**
   * Grouping puts every file in the bucket of its own slice index and in no
   * other: the keys are exactly the indices that occur, each bucket holds the
   * paths with that index in input order, and the bucket sizes add up to the
   * number of files.
   */
  lemma GroupPartitions(files: seq<ScanFile>)
    ensures WellFormed(Group(files))
    ensures Group(files).buckets.Keys == IndicesOf(files)
    ensures forall k :: k in Group(files).buckets ==> Group(files).buckets[k] == PathsWithIndex(files, k)
    ensures forall k :: k in Group(files).buckets ==> |Group(files).buckets[k]| > 0
    ensures SizeSum(Group(files).order, Group(files).buckets) == |files|
  {
    GroupWellFormed(files);
    GroupBuckets(files);
    GroupSizes(files);
  }

  lemma {:induction false} NotInFilter(files: seq<ScanFile>, k: SliceIndex)
    requires k !in IndicesOf(files)
    ensures PathsWithIndex(files, k) == []
  {
    if files != [] {
      var init := files[..|files| - 1];
      assert IndicesOf(init) <= IndicesOf(files) by {
        assert forall i :: 0 <= i < |init| ==> files[i] == init[i];
      }
      NotInFilter(init, k);
    }
  }

  /** A path is in the bucket of `k` exactly when some input file has that path and index `k`. */
  lemma {:induction false} InFilter(files: seq<ScanFile>, k: SliceIndex, p: Path)
    ensures p in PathsWithIndex(files, k) <==> exists i :: 0 <= i < |files| && files[i] == ScanFile(p, k)
  {
    if files != [] {
      var init := files[..|files| - 1];
      InFilter(init, k, p);
      if exists i :: 0 <= i < |init| && init[i] == ScanFile(p, k) {
        var i :| 0 <= i < |init| && init[i] == ScanFile(p, k);
        assert files[i] == ScanFile(p, k);
      }
      if exists i :: 0 <= i < |files| && files[i] == ScanFile(p, k) {
        var i :| 0 <= i < |files| && files[i] == ScanFile(p, k);
        if i < |init| { assert init[i] == ScanFile(p, k); }
      }
    }
  }

  /** The paths of the scan are pairwise different (they come from one directory listing). */
  predicate DistinctPaths(files: seq<ScanFile>)
  {
    forall i, j :: 0 <= i < j < |files| ==> files[i].path != files[j].path
  }

  lemma {:induction false} FilterDistinct(files: seq<ScanFile>, k: SliceIndex)
    requires DistinctPaths(files)
    ensures Distinct(PathsWithIndex(files, k))
  {
    if files != [] {
      var init := files[..|files| - 1];
      var f := files[|files| - 1];
      FilterDistinct(init, k);
      InFilter(init, k, f.path);
      assert forall i :: 0 <= i < |init| ==> init[i].path != f.path by {
        assert forall i :: 0 <= i < |init| ==> init[i] == files[i];
      }
    }
  }

  /**
   * With distinct paths, each file lies in exactly one bucket: the one for its
   * own slice index.
   */
  lemma FileInOneBucket(files: seq<ScanFile>, i: nat, k: SliceIndex)
    requires DistinctPaths(files) && i < |files| && k in Group(files).buckets
    ensures files[i].path in Group(files).buckets[k] <==> k == files[i].index
  {
    GroupPartitions(files);
    InFilter(files, k, files[i].path);
    if files[i].path in Group(files).buckets[k] {
      var j :| 0 <= j < |files| && files[j] == ScanFile(files[i].path, k);
      assert files[j].path == files[i].path;
    }
  }

  /** `GroupByIndex` is the grouping loop of the source, over a dict kept as keys plus map. */
  method GroupByIndex(files: seq<ScanFile>) returns (m: IndexMapping)
    ensures m == Group(files)
  {
    m := IndexMapping([], map[]);
    for i := 0 to |files|
      invariant m == Group(files[..i])
    {
      assert files[..i + 1][..i] == files[..i];
      var f := files[i];
      if f.index in m.buckets {
        m := m.(buckets := m.buckets[f.index := m.buckets[f.index] + [f.path]]);
      } else {
        m := IndexMapping(m.order + [f.index], m.buckets[f.index := [f.path]]);
      }
    }
    assert files[..|files|] == files;
  }

  // ---------------------------------------------------------------------------
  // Sorting each bucket by file number

  predicate AllNumbered(b: seq<Path>)
  {
    forall i :: 0 <= i < |b| ==> FileNumber(b[i]).Some?
  }

  /** `sorted(bucket, key=fileNumberExtractor)`, which fails when some name has no number. */
  function SortBucket(b: seq<Path>): Option<seq<Path>>
  {
    if AllNumbered(b) then Some(SortBy(b, ByFileNumber)) else None
  }

  /**
   * A sorted bucket is a permutation of the bucket and is non-decreasing in
   * file number; sorting fails exactly when some name has no number.
   */
  lemma SortBucketSorts(b: seq<Path>)
    ensures SortBucket(b).None? <==> exists i :: 0 <= i < |b| && FileNumber(b[i]).None?
    ensures SortBucket(b).Some? ==> multiset(SortBucket(b).value) == multiset(b)
    ensures SortBucket(b).Some? ==> AllNumbered(SortBucket(b).value)
    ensures SortBucket(b).Some? ==> forall i, j :: 0 <= i < j < |b| ==>
      FileNumber(SortBucket(b).value[i]).Some? && FileNumber(SortBucket(b).value[j]).Some? &&
      FileNumber(SortBucket(b).value[i]).value <= FileNumber(SortBucket(b).value[j]).value
  {
    if AllNumbered(b) {
      var r := SortBy(b, ByFileNumber);
      ByFileNumberPreorder();
      SortBySorted(b, ByFileNumber);
      SortByPermutes(b, ByFileNumber);
      forall i | 0 <= i < |r| ensures FileNumber(r[i]).Some? {
        assert r[i] in multiset(b);
      }
    }
  }

  /** The buckets once the sorting loop has visited the keys of `order`, in that order. */
  function SortedAlong(order: seq<SliceIndex>, buckets: map<SliceIndex, seq<Path>>): map<SliceIndex, seq<Path>>
  {
    if order == [] then buckets
    else
      var prior := SortedAlong(order[..|order| - 1], buckets);
      var k := order[|order| - 1];
      if k in prior then prior[k := SortBy(prior[k], ByFileNumber)] else prior
  }

  /** All buckets sorted, or the failure of an unsortable one. */
  function SortBuckets(m: IndexMapping): Result<IndexMapping, ScanError>
  {
    if exists k :: k in m.buckets && !AllNumbered(m.buckets[k]) then Err(NoFileNumber)
    else Ok(IndexMapping(m.order, SortedAlong(m.order, m.buckets)))
  }

  lemma NotEarlier(order: seq<SliceIndex>, i: nat)
    requires Distinct(order) && i < |order|
    ensures order[i] !in order[..i]
    ensures order[..i + 1] == order[..i] + [order[i]]
    ensures Distinct(order[..i])
  {
  }

  /** Visiting distinct keys sorts exactly the buckets of those keys. */
  lemma {:induction false} SortedAlongAt(order: seq<SliceIndex>, buckets: map<SliceIndex, seq<Path>>)
    requires Distinct(order)
    ensures SortedAlong(order, buckets).Keys == buckets.Keys
    ensures forall k :: k in buckets ==>
              SortedAlong(order, buckets)[k] == if k in order then SortBy(buckets[k], ByFileNumber) else buckets[k]
  {
    if order != [] {
      var i := |order| - 1;
      NotEarlier(order, i);
      SortedAlongAt(order[..i], buckets);
      assert order == order[..i] + [order[i]];
    }
  }

  /** The loop that replaces each bucket by its sorted copy, in key order. */
  method SortEachBucket(m: IndexMapping) returns (r: Result<IndexMapping, ScanError>)
    requires WellFormed(m)
    ensures r == SortBuckets(m)
  {
    var buckets := m.buckets;
    for i := 0 to |m.order|
      invariant buckets == SortedAlong(m.order[..i], m.buckets)
      invariant forall j :: 0 <= j < i ==> AllNumbered(m.buckets[m.order[j]])
    {
      var k := m.order[i];
      NotEarlier(m.order, i);
      SortedAlongAt(m.order[..i], m.buckets);
      assert m.order[..i + 1][..i] == m.order[..i];
      var sorted := SortBucket(buckets[k]);
      if sorted.None? {
        assert k in m.buckets && !AllNumbered(m.buckets[k]);
        return Err(NoFileNumber);
      }
      buckets := buckets[k := sorted.value];
    }
    assert m.order[..|m.order|] == m.order;
    forall k | k in m.buckets ensures AllNumbered(m.buckets[k]) {
      var j :| 0 <= j < |m.order| && m.order[j] == k;
    }
    r := Ok(IndexMapping(m.order, buckets));
  }

  lemma UnnumberedFails(files: seq<ScanFile>, i: nat)
    requires i < |files| && FileNumber(files[i].path).None?
    ensures SortBuckets(Group(files)).Err?
  {
    GroupWellFormed(files);
    GroupBuckets(files);
    var k := files[i].index;
    assert k in IndicesOf(files);
    InFilter(files, k, files[i].path);
    NotAllNumbered(Group(files).buckets[k], files[i].path);
  }

  lemma NotAllNumbered(b: seq<Path>, p: Path)
    requires p in b && FileNumber(p).None?
    ensures !AllNumbered(b)
  {
  }

  lemma FailureHasUnnumbered(files: seq<ScanFile>) returns (i: nat)
    requires SortBuckets(Group(files)).Err?
    ensures i < |files| && FileNumber(files[i].path).None?
  {
    GroupPartitions(files);
    var m := Group(files);
    var k :| k in m.buckets && !AllNumbered(m.buckets[k]);
    var j :| 0 <= j < |m.buckets[k]| && FileNumber(m.buckets[k][j]).None?;
    InFilter(files, k, m.buckets[k][j]);
    i :| 0 <= i < |files| && files[i] == ScanFile(m.buckets[k][j], k);
  }

  /** Sorting fails exactly when some file of the scan has a name without a file number. */
  lemma SortBucketsFails(files: seq<ScanFile>)
    ensures SortBuckets(Group(files)).Err? <==> exists i :: 0 <= i < |files| && FileNumber(files[i].path).None?
  {
    if exists i :: 0 <= i < |files| && FileNumber(files[i].path).None? {
      var i :| 0 <= i < |files| && FileNumber(files[i].path).None?;
      UnnumberedFails(files, i);
    }
    if SortBuckets(Group(files)).Err? {
      var i := FailureHasUnnumbered(files);
    }
  }

  lemma SortBucketsKeeps(m: IndexMapping)
    requires WellFormed(m) && SortBuckets(m).Ok?
    ensures WellFormed(SortBuckets(m).value) && SortBuckets(m).value.order == m.order
    ensures SortBuckets(m).value.buckets.Keys == m.buckets.Keys
    ensures forall k :: k in m.buckets ==> SortBucket(m.buckets[k]) == Some(SortBuckets(m).value.buckets[k])
  {
    SortedAlongAt(m.order, m.buckets);
  }

  // ---------------------------------------------------------------------------
  // Geometry

  datatype Geometry = Geometry(total: nat, spatial: nat, timepoints: nat, echoes: nat)

  /**
   * `nSpatialSlices = distinct // echoes` and
   * `nTimePoints = total // (echoes * nSpatialSlices)`; a zero divisor fails.
   */
  function ComputeGeometry(total: nat, distinct: nat, echoes: nat): (r: Result<Geometry, ScanError>)
    ensures r.Err? <==> echoes == 0 || distinct < echoes
    ensures r.Err? ==> r.error == ZeroDivision
    ensures r.Ok? ==> r.value.total == total && r.value.echoes == echoes && r.value.spatial >= 1
    ensures r.Ok? ==> r.value.spatial * echoes <= distinct < (r.value.spatial + 1) * echoes
    ensures r.Ok? ==> r.value.timepoints * (echoes * r.value.spatial) <= total
                      < (r.value.timepoints + 1) * (echoes * r.value.spatial)
  {
    if echoes == 0 || distinct / echoes == 0 then Err(ZeroDivision)
    else
      var spatial := distinct / echoes;
      MulPositive(echoes, spatial);
      var timepoints := total / (echoes * spatial);
      FloorDivision(distinct, echoes);
      FloorDivision(total, echoes * spatial);
      Ok(Geometry(total, spatial, timepoints, echoes))
  }

  /** Python's `a // d` for a non-negative `a`: the largest `q` with `q * d <= a`. */
  lemma FloorDivision(a: nat, d: nat)
    requires d > 0
    ensures (a / d) * d <= a < (a / d + 1) * d
  {
    var q, r := a / d, a % d;
    assert a == d * q + r && r < d;
    assert q * d == d * q;
    assert (q + 1) * d == q * d + d;
  }

  lemma MulPositive(a: nat, b: nat)
    requires a > 0 && b > 0
    ensures a * b > 0
  {
  }

  /**
   * When every slice index has the same number `T` of files and the distinct
   * indices split evenly over the echoes, the geometry recovers `T` time points
   * and `nSpatialSlices * echoes == distinct`.
   */
  lemma UniformGeometry(distinct: nat, T: nat, echoes: nat)
    requires echoes > 0 && distinct >= echoes && distinct % echoes == 0
    ensures ComputeGeometry(distinct * T, distinct, echoes) == Ok(Geometry(distinct * T, distinct / echoes, T, echoes))
    ensures (distinct / echoes) * echoes == distinct
  {
    var s := distinct / echoes;
    assert s * echoes == distinct;
    assert echoes * s == distinct;
    assert distinct > 0;
    DivCancel(T, distinct);
  }

  lemma DivCancel(a: nat, d: nat)
    requires d > 0
    ensures (d * a) / d == a
  {
    var q, r := (d * a) / d, (d * a) % d;
    assert d * a == d * q + r && 0 <= r < d;
    assert d * (a - q) == r;
    if a - q >= 1 {
      MulMono(1, a - q, d);
      assert false;
    } else if a - q <= -1 {
      MulMono(1, q - a, d);
      assert false;
    }
  }

  /** With a uniform `T` files per index, the file count is `distinct * T`. */
  lemma {:induction false} SizeSumUniform(order: seq<SliceIndex>, buckets: map<SliceIndex, seq<Path>>, T: nat)
    requires forall i :: 0 <= i < |order| ==> order[i] in buckets && |buckets[order[i]]| == T
    ensures SizeSum(order, buckets) == |order| * T
  {
    if order != [] {
      SizeSumUniform(order[..|order| - 1], buckets, T);
      assert (|order| - 1) * T + T == |order| * T;
    }
  }

  // ---------------------------------------------------------------------------
  // Echo blocks

  /** `[sorted[k:k + n] for k in range(0, n * echoes, n)]`. */
  function EchoBlocks(sorted: seq<SliceIndex>, n: nat, echoes: nat): (r: seq<seq<SliceIndex>>)
    requires n * echoes <= |sorted|
    ensures |r| == echoes
    ensures forall e :: 0 <= e < echoes ==> |r[e]| == n
  {
    if echoes == 0 then []
    else
      MulSucc(n, echoes - 1);
      [sorted[..n]] + EchoBlocks(sorted[n..], n, echoes - 1)
  }

  lemma MulSucc(n: nat, e: nat)
    ensures n * (e + 1) == n * e + n
  {
  }

  lemma MulMono(a: nat, b: nat, n: nat)
    requires a <= b
    ensures a * n <= b * n
  {
  }

  /** Position `x` of echo block `e` is position `e * n + x` of the sorted indices. */
  lemma {:induction false} EchoBlockAt(sorted: seq<SliceIndex>, n: nat, echoes: nat, e: nat, x: nat)
    requires n * echoes <= |sorted| && e < echoes && x < n
    ensures e * n + x < n * echoes
    ensures EchoBlocks(sorted, n, echoes)[e][x] == sorted[e * n + x]
  {
    MulSucc(n, echoes - 1);
    if e > 0 {
      EchoBlockAt(sorted[n..], n, echoes - 1, e - 1, x);
      MulSucc(n, e - 1);
      assert (e - 1) * n + n == e * n;
      assert n * (echoes - 1) + n == n * echoes;
    } else {
      assert n <= n * echoes;
    }
  }

  predicate StrictlyIncreasing(s: seq<int>)
  {
    forall i, j :: 0 <= i < j < |s| ==> s[i] < s[j]
  }

  lemma PositionOrder(e: nat, x: nat, e': nat, x': nat, n: nat)
    requires x < n && x' < n && e < e'
    ensures e * n + x < e' * n + x'
  {
    MulMono(e + 1, e', n);
    assert (e + 1) * n == e * n + n;
  }

  /**
   * Over strictly increasing slice indices, every index of echo block `e` is
   * below every index of a later block, so the blocks are pairwise disjoint,
   * and each block is itself increasing.
   */
  lemma BlocksOrdered(sorted: seq<SliceIndex>, n: nat, echoes: nat, e: nat, x: nat, e': nat, x': nat)
    requires n * echoes <= |sorted| && StrictlyIncreasing(sorted)
    requires e < echoes && x < n && e' < echoes && x' < n
    ensures (e, x) != (e', x') ==> EchoBlocks(sorted, n, echoes)[e][x] != EchoBlocks(sorted, n, echoes)[e'][x']
    ensures e < e' ==> EchoBlocks(sorted, n, echoes)[e][x] < EchoBlocks(sorted, n, echoes)[e'][x']
    ensures e == e' && x < x' ==> EchoBlocks(sorted, n, echoes)[e][x] < EchoBlocks(sorted, n, echoes)[e'][x']
  {
    EchoBlockAt(sorted, n, echoes, e, x);
    EchoBlockAt(sorted, n, echoes, e', x');
    if e < e' { PositionOrder(e, x, e', x', n); }
    if e' < e { PositionOrder(e', x', e, x, n); }
  }

  /** The indices from position `n * echoes` on are silently left out of every block. */
  lemma UnusedIndices(sorted: seq<SliceIndex>, n: nat, echoes: nat, i: nat, e: nat, x: nat)
    requires n * echoes <= i < |sorted| && StrictlyIncreasing(sorted)
    requires e < echoes && x < n
    ensures EchoBlocks(sorted, n, echoes)[e][x] < sorted[i]
  {
    EchoBlockAt(sorted, n, echoes, e, x);
  }

  // ---------------------------------------------------------------------------
  // The plan: what `concatenate_scan` derives before it writes anything

  /** Every slice index of `block` has a bucket with at least `T` files. */
  predicate CoveredBlock(buckets: map<SliceIndex, seq<Path>>, block: seq<SliceIndex>, T: nat)
  {
    forall x :: 0 <= x < |block| ==> block[x] in buckets && T <= |buckets[block[x]]|
  }

  predicate Covered(buckets: map<SliceIndex, seq<Path>>, blocks: seq<seq<SliceIndex>>, T: nat)
  {
    forall e :: 0 <= e < |blocks| ==> CoveredBlock(buckets, blocks[e], T)
  }

  /** The sorted buckets, the geometry and the slice indices of each echo. */
  datatype Layout = Layout(buckets: map<SliceIndex, seq<Path>>, geometry: Geometry, blocks: seq<seq<SliceIndex>>)

  predicate Fits(l: Layout)
  {
    && |l.blocks| == l.geometry.echoes
    && (forall e :: 0 <= e < |l.blocks| ==> |l.blocks[e]| == l.geometry.spatial)
    && Covered(l.buckets, l.blocks, l.geometry.timepoints)
  }

  /**
   * The checks and derivations of `concatenate_scan` in source order: the
   * echo count must divide the file count, every name must carry a file
   * number, the geometry must not divide by zero, and every slice index an
   * echo uses must repeat at least once per time point.
   */
  function Plan(files: seq<ScanFile>, echoes: nat): (r: Result<Layout, ScanError>)
    ensures r.Ok? ==> Fits(r.value) && r.value.geometry.echoes == echoes && r.value.geometry.total == |files|
  {
    if echoes == 0 then Err(ZeroDivision)
    else if |files| % echoes != 0 then Err(NotDivisible)
    else match SortBuckets(Group(files))
      case Err(e) => Err(e)
      case Ok(m) =>
        match ComputeGeometry(|files|, |m.order|, echoes)
        case Err(e) => Err(e)
        case Ok(g) =>
          var blocks := EchoBlocks(SortBy(m.order, IntLe), g.spatial, echoes);
          if Covered(m.buckets, blocks, g.timepoints) then Ok(Layout(m.buckets, g, blocks)) else Err(MissingRepeat)
  }

  /** The rows of one echo: `[[bucket(block[x])[t] for x] for t in range(T)]`. */
  function EchoRows(buckets: map<SliceIndex, seq<Path>>, block: seq<SliceIndex>, T: nat): (r: seq<seq<Path>>)
    requires CoveredBlock(buckets, block, T)
    ensures |r| == T && forall t :: 0 <= t < T ==> |r[t]| == |block|
  {
    seq(T, t requires 0 <= t < T => seq(|block|, x requires 0 <= x < |block| => buckets[block[x]][t]))
  }

  /** `concat_file_list`, indexed `[echo][time][space]`. */
  function Table(l: Layout): (r: seq<seq<seq<Path>>>)
    requires Fits(l)
    ensures |r| == l.geometry.echoes
    ensures forall e :: 0 <= e < |r| ==> |r[e]| == l.geometry.timepoints
    ensures forall e, t :: 0 <= e < |r| && 0 <= t < |r[e]| ==> |r[e][t]| == l.geometry.spatial
  {
    seq(|l.blocks|, e requires 0 <= e < |l.blocks| => EchoRows(l.buckets, l.blocks[e], l.geometry.timepoints))
  }

  /** One line per time point, the paths of a line separated by single spaces. */
  function ManifestText(rows: seq<seq<Path>>): string
  {
    Join(seq(|rows|, t requires 0 <= t < |rows| => Join(rows[t], ' ')), '\n')
  }

  const MeSubdir: string := "medata"

  /** `os.path.join(scan_dir, 'medata', '_me{echo}_infilelist')`. */
  function ManifestPath(scanDir: Path, e: nat): Path
  {
    PathJoin(PathJoin(scanDir, MeSubdir), "_me" + NatToString(e) + "_infilelist")
  }

  /** A file `concatenate_scan` writes: its path and its whole contents. */
  datatype Manifest = Manifest(path: Path, text: string)

  /** The manifest of each echo block, in echo order. */
  function Rendered(scanDir: Path, buckets: map<SliceIndex, seq<Path>>, blocks: seq<seq<SliceIndex>>, T: nat): (r: seq<Manifest>)
    requires Covered(buckets, blocks, T)
    ensures |r| == |blocks|
  {
    seq(|blocks|, e requires 0 <= e < |blocks| => EchoManifest(scanDir, e, buckets, blocks[e], T))
  }

  /** The manifest of echo `e`, whose slice indices are `block`. */
  function EchoManifest(scanDir: Path, e: nat, buckets: map<SliceIndex, seq<Path>>, block: seq<SliceIndex>, T: nat): Manifest
    requires CoveredBlock(buckets, block, T)
  {
    Manifest(ManifestPath(scanDir, e), ManifestText(EchoRows(buckets, block, T)))
  }

  /** The manifests of a scan, one per echo in echo order, or why there are none. */
  function Manifests(scanDir: Path, files: seq<ScanFile>, echoes: nat): (r: Result<seq<Manifest>, ScanError>)
    ensures r.Ok? <==> Plan(files, echoes).Ok?
    ensures r.Err? ==> r.error == Plan(files, echoes).error
    ensures r.Ok? ==> |r.value| == echoes
  {
    match Plan(files, echoes)
    case Err(e) => Err(e)
    case Ok(l) => Ok(Rendered(scanDir, l.buckets, l.blocks, l.geometry.timepoints))
  }

  /** The time rows of echo `e` as stored in the array. */
  function RowsOf(table: array3<Path>, e: nat): (r: seq<seq<Path>>)
    requires e < table.Length0
    reads table
    ensures |r| == table.Length1 && forall t :: 0 <= t < |r| ==> |r[t]| == table.Length2
  {
    seq(table.Length1, t requires 0 <= t < table.Length1 reads table =>
      seq(table.Length2, x requires 0 <= x < table.Length2 reads table => table[e, t, x]))
  }

  /** The sorted distinct slice indices all have buckets. */
  lemma BlocksInKeys(m: IndexMapping, n: nat, echoes: nat, e: nat, x: nat)
    requires WellFormed(m) && n * echoes <= |m.order| && e < echoes && x < n
    ensures EchoBlocks(SortBy(m.order, IntLe), n, echoes)[e][x] in m.buckets
  {
    var sorted := SortBy(m.order, IntLe);
    EchoBlockAt(sorted, n, echoes, e, x);
    var v := sorted[e * n + x];
    SortByPermutes(m.order, IntLe);
    assert v in multiset(sorted);
    assert v in m.order;
  }

  /** Fills `table[e]` from the buckets of `block`, failing on a bucket with too few files. */
  method FillEcho(table: array3<Path>, e: nat, buckets: map<SliceIndex, seq<Path>>, block: seq<SliceIndex>)
    returns (covered: bool)
    requires e < table.Length0 && |block| == table.Length2
    requires forall x :: 0 <= x < |block| ==> block[x] in buckets
    modifies table
    ensures covered <==> CoveredBlock(buckets, block, table.Length1)
    ensures covered ==> RowsOf(table, e) == EchoRows(buckets, block, table.Length1)
    ensures forall e', t, x :: 0 <= e' < table.Length0 && e' != e && 0 <= t < table.Length1 && 0 <= x < table.Length2 ==>
              table[e', t, x] == old(table[e', t, x])
  {
    for t := 0 to table.Length1
      invariant CoveredBlock(buckets, block, t)
      invariant forall t', x :: 0 <= t' < t && 0 <= x < |block| ==> table[e, t', x] == buckets[block[x]][t']
      invariant forall e', t', x :: 0 <= e' < table.Length0 && e' != e && 0 <= t' < table.Length1 && 0 <= x < table.Length2 ==>
                  table[e', t', x] == old(table[e', t', x])
    {
      for x := 0 to |block|
        invariant forall x' :: 0 <= x' < x ==> t < |buckets[block[x']]| && table[e, t, x'] == buckets[block[x']][t]
        invariant forall t', x' :: 0 <= t' < t && 0 <= x' < |block| ==> table[e, t', x'] == buckets[block[x']][t']
        invariant forall e', t', x' :: 0 <= e' < table.Length0 && e' != e && 0 <= t' < table.Length1 && 0 <= x' < table.Length2 ==>
                    table[e', t', x'] == old(table[e', t', x'])
      {
        var index := block[x];
        if t >= |buckets[index]| {
          return false;
        }
        table[e, t, x] := buckets[index][t];
      }
    }
    forall t | 0 <= t < table.Length1
      ensures RowsOf(table, e)[t] == EchoRows(buckets, block, table.Length1)[t]
    {
      assert RowsOf(table, e)[t] == seq(|block|, x requires 0 <= x < |block| => buckets[block[x]][t]);
    }
    return true;
  }

  /** Once the buckets are sorted and the geometry is sound, the plan hinges on coverage alone. */
  lemma PlanOnceSorted(files: seq<ScanFile>, echoes: nat, m: IndexMapping, g: Geometry)
    requires echoes > 0 && |files| % echoes == 0
    requires SortBuckets(Group(files)) == Ok(m) && ComputeGeometry(|files|, |m.order|, echoes) == Ok(g)
    ensures var blocks := EchoBlocks(SortBy(m.order, IntLe), g.spatial, echoes);
            Plan(files, echoes) == if Covered(m.buckets, blocks, g.timepoints) then Ok(Layout(m.buckets, g, blocks)) else Err(MissingRepeat)
  {
  }

  /**
   * The nested loops of `concatenate_scan` over a fresh `concat_file_list`:
   * fill each echo's time rows and render that echo's manifest, failing on
   * the first bucket with fewer files than there are time points.
   */
  method FillAndRender(scanDir: Path, buckets: map<SliceIndex, seq<Path>>, blocks: seq<seq<SliceIndex>>, nTime: nat, nSpatial: nat)
    returns (r: Option<seq<Manifest>>)
    requires forall e :: 0 <= e < |blocks| ==> |blocks[e]| == nSpatial
    requires forall e, x :: 0 <= e < |blocks| && 0 <= x < |blocks[e]| ==> blocks[e][x] in buckets
    ensures r.Some? <==> Covered(buckets, blocks, nTime)
    ensures r.Some? ==> r.value == Rendered(scanDir, buckets, blocks, nTime)
  {
    var table := new Path[|blocks|, nTime, nSpatial];
    var manifests: seq<Manifest> := [];
    for e := 0 to |blocks|
      invariant |manifests| == e
      invariant forall e' :: 0 <= e' < e ==>
                  CoveredBlock(buckets, blocks[e'], nTime) && manifests[e'] == EchoManifest(scanDir, e', buckets, blocks[e'], nTime)
    {
      var covered := FillEcho(table, e, buckets, blocks[e]);
      if !covered {
        return None;
      }
      var rows := RowsOf(table, e);
      manifests := manifests + [Manifest(ManifestPath(scanDir, e), ManifestText(rows))];
    }
    assert Covered(buckets, blocks, nTime);
    assert manifests == Rendered(scanDir, buckets, blocks, nTime);
    return Some(manifests);
  }

  /** The grouping loop followed by the sorting loop. */
  method ArrangeBuckets(files: seq<ScanFile>) returns (r: Result<IndexMapping, ScanError>)
    ensures r == SortBuckets(Group(files))
    ensures r.Ok? ==> WellFormed(r.value)
  {
    var grouped := GroupByIndex(files);
    assert WellFormed(grouped) by { GroupWellFormed(files); }
    r := SortEachBucket(grouped);
    if r.Ok? {
      SortBucketsKeeps(grouped);
    }
  }

  /**
   * `concatenate_scan` from the slice indices onwards: group, sort each group,
   * derive the geometry, fill the [echo][time][space] table and render one
   * manifest per echo.
   */
  method ConcatenateScan(scanDir: Path, files: seq<ScanFile>, echoes: nat) returns (r: Result<seq<Manifest>, ScanError>)
    ensures r == Manifests(scanDir, files, echoes)
  {
    if echoes == 0 {
      return Err(ZeroDivision);
    }
    if |files| % echoes != 0 {
      return Err(NotDivisible);
    }
    var arranged := ArrangeBuckets(files);
    if arranged.Err? {
      return Err(arranged.error);
    }
    var m := arranged.value;
    var geometry := ComputeGeometry(|files|, |m.order|, echoes);
    if geometry.Err? {
      return Err(geometry.error);
    }
    var g := geometry.value;
    var byEcho := EchoBlocks(SortBy(m.order, IntLe), g.spatial, echoes);
    forall e, x | 0 <= e < echoes && 0 <= x < g.spatial
      ensures byEcho[e][x] in m.buckets
    {
      BlocksInKeys(m, g.spatial, echoes, e, x);
    }
    var rendered := FillAndRender(scanDir, m.buckets, byEcho, g.timepoints, g.spatial);
    PlanOnceSorted(files, echoes, m, g);
    if rendered.None? {
      return Err(MissingRepeat);
    }
    r := Ok(rendered.value);
  }

  // ---------------------------------------------------------------------------
  // What the plan promises

  /** The dict has one key per distinct slice index of the scan. */
  lemma DistinctIndexCount(files: seq<ScanFile>)
    ensures |Group(files).order| == |IndicesOf(files)|
  {
    GroupWellFormed(files);
    var m := Group(files);
    DistinctCard(m.order);
    assert (set x | x in m.order) == IndicesOf(files);
  }

  lemma {:induction false} SizeSumAtLeast(order: seq<SliceIndex>, buckets: map<SliceIndex, seq<Path>>)
    requires forall i :: 0 <= i < |order| ==> order[i] in buckets && |buckets[order[i]]| > 0
    ensures SizeSum(order, buckets) >= |order|
  {
    if order != [] {
      SizeSumAtLeast(order[..|order| - 1], buckets);
    }
  }

  /**
   * How a scan is rejected, in terms of its files: no echoes; a file count
   * that the echo count does not divide; a name without a file number; or,
   * with every name numbered, fewer distinct slice indices than echoes.
   */
  lemma PlanFailures(files: seq<ScanFile>, echoes: nat)
    ensures echoes == 0 ==> Plan(files, echoes) == Err(ZeroDivision)
    ensures Plan(files, echoes) == Err(NotDivisible) <==> echoes > 0 && |files| % echoes != 0
    ensures Plan(files, echoes) == Err(NoFileNumber) <==>
              echoes > 0 && |files| % echoes == 0 && exists i :: 0 <= i < |files| && FileNumber(files[i].path).None?
    ensures echoes > 0 && |files| % echoes == 0 && (forall i :: 0 <= i < |files| ==> FileNumber(files[i].path).Some?) ==>
              (Plan(files, echoes) == Err(ZeroDivision) <==> |IndicesOf(files)| < echoes)
  {
    SortBucketsFails(files);
    DistinctIndexCount(files);
  }

  /** There are at least as many files as distinct slice indices. */
  lemma FilesCoverIndices(files: seq<ScanFile>)
    ensures |Group(files).order| <= |files|
  {
    var m := Group(files);
    GroupWellFormed(files);
    GroupSizes(files);
    SizeSumAtLeast(m.order, m.buckets);
  }

  /**
   * A successful plan has at least one spatial slice and at least one time
   * point, and its echo blocks use at most the distinct indices there are.
   */
  lemma PlanGeometry(files: seq<ScanFile>, echoes: nat)
    requires Plan(files, echoes).Ok?
    ensures Plan(files, echoes).value.geometry.spatial >= 1
    ensures Plan(files, echoes).value.geometry.timepoints >= 1
    ensures Plan(files, echoes).value.geometry.spatial * echoes <= |IndicesOf(files)|
  {
    var g := Plan(files, echoes).value.geometry;
    var d := |Group(files).order|;
    FilesCoverIndices(files);
    DistinctIndexCount(files);
    assert ComputeGeometry(|files|, d, echoes) == Ok(g);
    TimepointsPositive(|files|, d, echoes);
  }

  lemma TimepointsPositive(total: nat, distinct: nat, echoes: nat)
    requires distinct <= total && ComputeGeometry(total, distinct, echoes).Ok?
    ensures ComputeGeometry(total, distinct, echoes).value.timepoints >= 1
  {
    var g := ComputeGeometry(total, distinct, echoes).value;
    assert echoes * g.spatial == g.spatial * echoes;
  }

  /** The sorted distinct slice indices are strictly increasing and are exactly those of the scan. */
  lemma SliceIndicesSorted(files: seq<ScanFile>)
    ensures StrictlyIncreasing(SortBy(Group(files).order, IntLe))
    ensures forall k :: k in SortBy(Group(files).order, IntLe) <==> k in IndicesOf(files)
  {
    GroupWellFormed(files);
    var order := Group(files).order;
    SortedIntsIncrease(order);
    forall k ensures k in SortBy(order, IntLe) <==> k in IndicesOf(files) {
      assert k in SortBy(order, IntLe) <==> k in multiset(SortBy(order, IntLe));
      assert k in order <==> k in multiset(order);
    }
  }

  /** `concat_file_list[e][t][x]`: the `t`-th file of the `x`-th slice index of echo `e`. */
  function Cell(l: Layout, e: nat, t: nat, x: nat): Path
    requires Fits(l) && e < l.geometry.echoes && t < l.geometry.timepoints && x < l.geometry.spatial
  {
    l.buckets[l.blocks[e][x]][t]
  }

  lemma TableCell(l: Layout, e: nat, t: nat, x: nat)
    requires Fits(l) && e < l.geometry.echoes && t < l.geometry.timepoints && x < l.geometry.spatial
    ensures Table(l)[e][t][x] == Cell(l, e, t, x)
  {
  }

  /**
   * What a layout built from `files` consists of: the sorted distinct slice
   * indices cut into echo blocks, and each bucket of the grouping sorted by
   * file number.
   */
  ghost predicate LaidOut(files: seq<ScanFile>, echoes: nat, l: Layout)
  {
    && Fits(l) && l.geometry.echoes == echoes
    && l.geometry.spatial * echoes <= |Group(files).order|
    && l.blocks == EchoBlocks(SortBy(Group(files).order, IntLe), l.geometry.spatial, echoes)
    && (forall k :: k in l.buckets ==> k in Group(files).buckets && l.buckets[k] == SortBy(Group(files).buckets[k], ByFileNumber))
    && (forall k :: k in Group(files).buckets ==> k in l.buckets && AllNumbered(Group(files).buckets[k]))
  }

  /** The layout of a successful plan is laid out from the grouped files. */
  lemma PlanLayout(files: seq<ScanFile>, echoes: nat, l: Layout)
    requires Plan(files, echoes) == Ok(l)
    ensures LaidOut(files, echoes, l)
  {
    GroupWellFormed(files);
    SortBucketsKeeps(Group(files));
  }

  /**
   * Cell `[e][t][x]` is the `t`-th file, in file-number order, of the slice
   * index at position `e * nSpatialSlices + x` of the sorted distinct indices.
   */
  lemma CellIs(files: seq<ScanFile>, echoes: nat, l: Layout, e: nat, t: nat, x: nat)
    requires LaidOut(files, echoes, l)
    requires e < echoes && t < l.geometry.timepoints && x < l.geometry.spatial
    ensures e * l.geometry.spatial + x < |Group(files).order|
    ensures l.blocks[e][x] == SortBy(Group(files).order, IntLe)[e * l.geometry.spatial + x]
    ensures t < |PathsWithIndex(files, l.blocks[e][x])|
    ensures Cell(l, e, t, x) == SortBy(PathsWithIndex(files, l.blocks[e][x]), ByFileNumber)[t]
  {
    var n := l.geometry.spatial;
    var sorted := SortBy(Group(files).order, IntLe);
    EchoBlockAt(sorted, n, echoes, e, x);
    GroupWellFormed(files);
    BlocksInKeys(Group(files), n, echoes, e, x);
    GroupBuckets(files);
  }

  /** Each cell is the path of a file of the scan whose slice index is the one its block assigns. */
  lemma CellOrigin(files: seq<ScanFile>, echoes: nat, l: Layout, e: nat, t: nat, x: nat)
    requires LaidOut(files, echoes, l)
    requires e < echoes && t < l.geometry.timepoints && x < l.geometry.spatial
    ensures exists i :: 0 <= i < |files| && files[i] == ScanFile(Cell(l, e, t, x), l.blocks[e][x])
  {
    CellIs(files, echoes, l, e, t, x);
    var k := l.blocks[e][x];
    var b := PathsWithIndex(files, k);
    SortByPermutes(b, ByFileNumber);
    assert Cell(l, e, t, x) in multiset(SortBy(b, ByFileNumber));
    InFilter(files, k, Cell(l, e, t, x));
  }

  /** Cells of different slices hold different files. */
  lemma CellsDistinctAcross(files: seq<ScanFile>, echoes: nat, l: Layout, e: nat, t: nat, x: nat, e': nat, t': nat, x': nat)
    requires DistinctPaths(files) && LaidOut(files, echoes, l)
    requires e < echoes && t < l.geometry.timepoints && x < l.geometry.spatial
    requires e' < echoes && t' < l.geometry.timepoints && x' < l.geometry.spatial
    requires (e, x) != (e', x')
    ensures Cell(l, e, t, x) != Cell(l, e', t', x')
  {
    var n := l.geometry.spatial;
    SliceIndicesSorted(files);
    BlocksOrdered(SortBy(Group(files).order, IntLe), n, echoes, e, x, e', x');
    CellOrigin(files, echoes, l, e, t, x);
    CellOrigin(files, echoes, l, e', t', x');
    var i :| 0 <= i < |files| && files[i] == ScanFile(Cell(l, e, t, x), l.blocks[e][x]);
    var j :| 0 <= j < |files| && files[j] == ScanFile(Cell(l, e', t', x'), l.blocks[e'][x']);
    assert i != j;
  }

  /** Two different cells of the table never hold the same file. */
  lemma CellsDistinct(files: seq<ScanFile>, echoes: nat, l: Layout, e: nat, t: nat, x: nat, e': nat, t': nat, x': nat)
    requires DistinctPaths(files) && LaidOut(files, echoes, l)
    requires e < echoes && t < l.geometry.timepoints && x < l.geometry.spatial
    requires e' < echoes && t' < l.geometry.timepoints && x' < l.geometry.spatial
    requires (e, t, x) != (e', t', x')
    ensures Cell(l, e, t, x) != Cell(l, e', t', x')
  {
    if (e, x) != (e', x') {
      CellsDistinctAcross(files, echoes, l, e, t, x, e', t', x');
    } else {
      CellIs(files, echoes, l, e, t, x);
      CellIs(files, echoes, l, e, t', x);
      var b := PathsWithIndex(files, l.blocks[e][x]);
      FilterDistinct(files, l.blocks[e][x]);
      SortByPermutes(b, ByFileNumber);
      PermutationDistinct(b, SortBy(b, ByFileNumber));
      DistinctAt(SortBy(b, ByFileNumber), t, t');
    }
  }

  /** Two positions of a sorted, fully numbered bucket are in file-number order. */
  lemma SortedBucketAt(b: seq<Path>, t: nat, t': nat)
    requires AllNumbered(b) && t <= t' < |b|
    ensures FileNumber(SortBy(b, ByFileNumber)[t]).Some? && FileNumber(SortBy(b, ByFileNumber)[t']).Some?
    ensures FileNumber(SortBy(b, ByFileNumber)[t]).value <= FileNumber(SortBy(b, ByFileNumber)[t']).value
  {
    var r := SortBy(b, ByFileNumber);
    assert AllNumbered(r) by {
      SortBucketSorts(b);
      assert SortBucket(b) == Some(r);
    }
    assert ByFileNumber(r[t], r[t']) by {
      if t < t' {
        ByFileNumberPreorder();
        SortBySorted(b, ByFileNumber);
      }
    }
  }

  /** Down a column of the table (time points of one slice) the file numbers never decrease. */
  lemma ColumnOrdered(files: seq<ScanFile>, echoes: nat, l: Layout, e: nat, t: nat, t': nat, x: nat)
    requires LaidOut(files, echoes, l)
    requires e < echoes && t <= t' < l.geometry.timepoints && x < l.geometry.spatial
    ensures FileNumber(Cell(l, e, t, x)).Some? && FileNumber(Cell(l, e, t', x)).Some?
    ensures FileNumber(Cell(l, e, t, x)).value <= FileNumber(Cell(l, e, t', x)).value
  {
    CellIs(files, echoes, l, e, t, x);
    CellIs(files, echoes, l, e, t', x);
    var k := l.blocks[e][x];
    assert k in Group(files).buckets;
    GroupBuckets(files);
    SortedBucketAt(PathsWithIndex(files, k), t, t');
  }

  /** Reading a manifest back: its lines are the rows and the words of a line are that row's paths. */
  lemma ManifestTextRoundTrip(rows: seq<seq<Path>>)
    requires |rows| >= 1 && forall t :: 0 <= t < |rows| ==> |rows[t]| >= 1
    requires forall t, x :: 0 <= t < |rows| && 0 <= x < |rows[t]| ==> ' ' !in rows[t][x] && '\n' !in rows[t][x]
    ensures |Split(ManifestText(rows), '\n')| == |rows|
    ensures forall t :: 0 <= t < |rows| ==> Split(Split(ManifestText(rows), '\n')[t], ' ') == rows[t]
  {
    var lines := seq(|rows|, t requires 0 <= t < |rows| => Join(rows[t], ' '));
    forall t | 0 <= t < |rows|
      ensures '\n' !in lines[t] && Split(lines[t], ' ') == rows[t]
    {
      JoinAvoids(rows[t], ' ', '\n');
      SplitJoin(rows[t], ' ');
    }
    SplitJoin(lines, '\n');
  }

  /**
   * The manifest of echo `e` sits at `<scan>/medata/_me<e>_infilelist` and,
   * for paths without spaces or newlines, has one line per time point whose
   * words are that time point's paths in slice order.
   */
  lemma ManifestLayout(scanDir: Path, files: seq<ScanFile>, echoes: nat, e: nat)
    requires Manifests(scanDir, files, echoes).Ok? && e < echoes
    requires forall i :: 0 <= i < |files| ==> ' ' !in files[i].path && '\n' !in files[i].path
    ensures Manifests(scanDir, files, echoes).value[e].path == ManifestPath(scanDir, e)
    ensures var l := Plan(files, echoes).value;
            var text := Manifests(scanDir, files, echoes).value[e].text;
            && |Split(text, '\n')| == l.geometry.timepoints
            && forall t :: 0 <= t < l.geometry.timepoints ==> Split(Split(text, '\n')[t], ' ') == Table(l)[e][t]
  {
    var l := Plan(files, echoes).value;
    var rows := Table(l)[e];
    PlanGeometry(files, echoes);
    PlanLayout(files, echoes, l);
    forall t, x | 0 <= t < |rows| && 0 <= x < |rows[t]|
      ensures ' ' !in rows[t][x] && '\n' !in rows[t][x]
    {
      TableCell(l, e, t, x);
      CellOrigin(files, echoes, l, e, t, x);
    }
    ManifestTextRoundTrip(rows);
  }

  /** Different echoes get different manifest files. */
  lemma ManifestPathsDistinct(scanDir: Path, e: nat, e': nat)
    ensures ManifestPath(scanDir, e) == ManifestPath(scanDir, e') ==> e == e'
  {
    var a := PathJoin(scanDir, MeSubdir);
    var b, b' := "_me" + NatToString(e) + "_infilelist", "_me" + NatToString(e') + "_infilelist";
    assert a != [] && a[|a| - 1] == 'a';
    if ManifestPath(scanDir, e) == ManifestPath(scanDir, e') {
      assert a + ['/'] + b == a + ['/'] + b';
      assert b == (a + ['/'] + b)[|a| + 1..];
      assert b' == (a + ['/'] + b')[|a| + 1..];
      assert NatToString(e) == b[3..|b| - 11];
      assert NatToString(e') == b'[3..|b'| - 11];
      DecimalInjective(e, e');
    }
  }

  lemma Regroup(a: nat, b: nat, c: nat)
    ensures (a * b) * c == b * (a * c) && a * c >= 0
  {
    MulMono(0, a, c);
  }

  lemma MultipleMod(q: nat, b: nat)
    requires b > 0
    ensures (b * q) % b == 0
  {
    DivCancel(q, b);
  }

  /** With `T` files per slice index, the scan has `distinct * T` files. */
  lemma UniformCount(files: seq<ScanFile>, T: nat)
    requires forall k :: k in IndicesOf(files) ==> |PathsWithIndex(files, k)| == T
    ensures |files| == |Group(files).order| * T
  {
    var m := Group(files);
    GroupPartitions(files);
    SizeSumUniform(m.order, m.buckets, T);
  }

  /** With `T` files per slice index, every echo block is covered for `T` time points. */
  lemma UniformCovered(files: seq<ScanFile>, echoes: nat, s: nat, T: nat)
    requires forall k :: k in IndicesOf(files) ==> |PathsWithIndex(files, k)| == T
    requires SortBuckets(Group(files)).Ok? && s * echoes <= |Group(files).order|
    ensures Covered(SortBuckets(Group(files)).value.buckets, EchoBlocks(SortBy(Group(files).order, IntLe), s, echoes), T)
  {
    var m := Group(files);
    GroupPartitions(files);
    SortBucketsKeeps(m);
    var sm := SortBuckets(m).value;
    var blocks := EchoBlocks(SortBy(m.order, IntLe), s, echoes);
    forall e | 0 <= e < echoes ensures CoveredBlock(sm.buckets, blocks[e], T) {
      forall x | 0 <= x < s ensures blocks[e][x] in sm.buckets && T <= |sm.buckets[blocks[e][x]]| {
        BlocksInKeys(m, s, echoes, e, x);
      }
    }
  }

  /**
   * A complete acquisition: every name numbered, every slice index repeated
   * `T` times and the distinct indices a multiple of the echo count. The plan
   * then succeeds with `T` time points and every index in some echo block.
   */
  lemma UniformScan(files: seq<ScanFile>, echoes: nat, T: nat)
    requires echoes > 0 && |IndicesOf(files)| >= echoes && |IndicesOf(files)| % echoes == 0
    requires forall i :: 0 <= i < |files| ==> FileNumber(files[i].path).Some?
    requires forall k :: k in IndicesOf(files) ==> |PathsWithIndex(files, k)| == T
    ensures Plan(files, echoes).Ok?
    ensures Plan(files, echoes).value.geometry == Geometry(|files|, |IndicesOf(files)| / echoes, T, echoes)
    ensures Plan(files, echoes).value.geometry.spatial * echoes == |IndicesOf(files)|
  {
    var m := Group(files);
    DistinctIndexCount(files);
    SortBucketsFails(files);
    var d := |m.order|;
    UniformCount(files, T);
    UniformGeometry(d, T, echoes);
    var s := d / echoes;
    Regroup(s, echoes, T);
    var q: nat := s * T;
    MultipleMod(q, echoes);
    UniformCovered(files, echoes, s, T);
    PlanOnceSorted(files, echoes, SortBuckets(m).value, Geometry(d * T, s, T, echoes));
  }
}
