# XNATFetch multi-echo ordering and selection logic, in Dafny

This project models the decision logic of XNATFetch. XNATFetch downloads MRI
sessions from an XNAT server and concatenates multi-echo fMRI DICOM series into
one volume per echo. Three parts of the repository are modelled:

- **The multi-echo ordering engine** of `concatenate_scan`
  (`old/me_concat/concatenate_multiecho.py`). It starts from the DICOM files of
  one scan and the slice index in each header, and then:
  - groups the files by slice index;
  - orders each group by the file number embedded in the file name;
  - derives the spatial-slice and time-point counts by integer division;
  - splits the sorted slice indices into one contiguous block per echo;
  - fills the `[echo][time][space]` table;
  - renders one `_me<e>_infilelist` manifest per echo.

  The same file also supplies the scan-directory helpers: `is_scan_ME`,
  `find_scans`, `get_scan_dirs`, `find_incomplete_dicom_sets`, the echo-count
  gate of `call_mdir` and the Dimon output name. All of these are in modules
  `Ordering` and `ScanDirs`.
- **The selection helpers** of `source/get_xnat_data.py`, in module `Selection`:
  - `is_keeper`, with Python's `fnmatch` in module `Patterns`;
  - `parse_comma_separated_list`, the text part of `load_list`, `wildcard_it`,
    `check_for_file` and `get_series_selection_lists`;
  - `match_subject_dates`;
  - the loop in `pull_data` that picks the `collisions` directory name.
- **The older completeness logic** of `old/me_concat/unused/utils.py`, in module
  `Legacy`:
  - `find_scans`, the `scans` argument rules, `check_dcms` and `check_concat`;
  - `call_mdir` (script choice, commands launched, progress output);
  - the retry, status and marker decisions of `make_complete`.

The Python built-ins these functions lean on are modelled once, in modules
`Text`, `Lists`, `Sorting` and `FileSystem`:

- `str.strip`, `str.split`, `str.join`, `str.zfill`, `str(n)`, `int(s)`;
- `os.path.join`;
- list comprehensions with a condition;
- `sorted` with a key;
- `glob.glob`;
- `os.walk`.

The file system is a value, `FileSystem.Disk`. It gives:

- the walk of a directory;
- the names listed in a directory;
- whether a path exists;
- the header fields of a DICOM file.

A DICOM header is the triple of fields the code reads: series code, slices per
volume and volumes. `concatenate_scan` receives its files as `(path, slice index)`
pairs in listing order, which is what the order-preserving `pool.map` at
`old/me_concat/concatenate_multiecho.py:381-382` hands over.

The code has two stateful algorithms, and both are imperative methods proved
against a specification function:

- **`Ordering.ConcatenateScan`** builds the index mapping in a loop
  (`GroupByIndex`), re-sorts every bucket in place (`SortEachBucket`), and fills
  a three-dimensional array (`FillEcho`, `FillAndRender`). Its postcondition ties
  the result to `Ordering.Manifests`. The lemmas about `Plan` and `Manifests`
  then state what the manifests contain.
- **`Selection.CollisionDir`** is the `while os.path.exists(...)` loop. It is
  proved to return the first free name.

`Legacy.CallMdir` and `Selection.WildcardIt` keep the loops of their sources.

A Python `dict` keeps insertion order, so the index mapping is a pair: the keys
in first-seen order, and a `map` from key to bucket. A list that the code
builds and returns is a `seq`.

Details of the code that the model keeps:

- The file-number pattern at `old/me_concat/concatenate_multiecho.py:403`
  accepts the `.dcm` extension in any letter case (`[Dd][Cc][Mm]`).
- The `$` of that pattern also matches before a final newline.
- `old/me_concat/unused/utils.py:160-163` retries the missed scans once, inside
  `make_complete`.
- `old/me_concat/unused/utils.py:182-186` writes one marker per incomplete
  *scan* (`.incomplete_runNN`).

## Model

| member | source | states |
|---|---|---|
| Text.Strip | source/get_xnat_data.py:656 | `str.strip()`: the result has no leading or trailing whitespace and is no longer than the input |
| Text.StripTrims | source/get_xnat_data.py:656 | the stripped text is a contiguous slice of the input, and only whitespace lies before and after it |
| Text.StripStripped | source/get_xnat_data.py:505 | stripping is idempotent: a stripped string strips to itself |
| Text.StripKeepsOut | source/get_xnat_data.py:656 | stripping introduces no character, so a comma-free piece stays comma-free |
| Text.StripAllSpace | source/get_xnat_data.py:505 | an all-whitespace line strips to the empty string, which the `len(el.strip()) > 0` test drops |
| Text.Split | source/get_xnat_data.py:656 | `str.split(sep)` yields at least one piece, and no piece contains the separator |
| Text.JoinSplit | source/get_xnat_data.py:504 | joining the pieces of a split with the same separator gives back the input |
| Text.SplitJoin | old/me_concat/concatenate_multiecho.py:429 | splitting a join of separator-free parts gives back exactly those parts |
| Text.StripIs | source/get_xnat_data.py:656 | a stripped text between two runs of whitespace is exactly what `strip()` returns |
| Text.StripSpaceAround | source/get_xnat_data.py:505 | whitespace added at either end does not change what a text strips to |
| Text.SplitConcat | source/get_xnat_data.py:504 | `(a + b).split(sep)`: the pieces of a, with its last piece run into the first piece of b, then the rest of b's pieces |
| Text.SplitAppend | source/get_xnat_data.py:656 | `(a + sep + b).split(sep)` is the pieces of a followed by the pieces of b |
| Text.SplitAllSpace | source/get_xnat_data.py:504 | the pieces of an all-whitespace text are all whitespace |
| Text.JoinLength | old/me_concat/concatenate_multiecho.py:429 | joining n parts of equal width w gives n(w+1)-1 characters: one separator between neighbours, none trailing |
| Text.JoinAvoids | old/me_concat/concatenate_multiecho.py:429 | a character absent from every part and different from the separator is absent from the join |
| Text.NatToString | old/me_concat/unused/utils.py:100 | `str(n)` is all digits, with no leading zero unless n is 0 |
| Text.DecimalRoundTrip | old/me_concat/unused/utils.py:100 | `int(str(n)) == n` |
| Text.DecimalInjective | old/me_concat/unused/utils.py:230 | different scan numbers have different decimal texts |
| Text.Repeat | old/me_concat/unused/utils.py:224 | `'\b' * n`: exactly n copies of the character, as the backspaces that erase the previous progress message |
| Text.ZFill | old/me_concat/unused/utils.py:100 | `str.zfill(w)`: width max(len, w); the text is unchanged when already wide enough; zeros are padded on the left, after a leading sign |
| Text.ZeroPadRoundTrip | old/me_concat/unused/utils.py:127 | `int(str(n).zfill(w)) == n`: the padded directory name still denotes scan n |
| Text.FormatPadded | old/me_concat/concatenate_multiecho.py:452 | `{n:0wd}` is all digits, exactly max(w, len(str(n))) long, and denotes n, which fixes the string |
| Text.PathJoinInjective | old/me_concat/concatenate_multiecho.py:430 | `os.path.join(a, b)` determines a relative last component b |
| Lists.Filter | source/get_xnat_data.py:67 | a filtering comprehension keeps at most the input's elements, and each kept one passes the test |
| Lists.FilterMembers | source/get_xnat_data.py:67 | an element is kept exactly when it is in the input and passes the test |
| Lists.FilterAppend | source/get_xnat_data.py:474-480 | filtering keeps input order: a concatenation filters part by part |
| Lists.FilterNonEmpty | source/get_xnat_data.py:69 | the filtered list is non-empty exactly when some element passes |
| Sorting.SortBy | old/me_concat/concatenate_multiecho.py:408 | `sorted(xs, key=…)` has the input's length; ordering, permutation and stability are in the rows below |
| Sorting.SortBySorted | old/me_concat/concatenate_multiecho.py:408 | under a total preorder, the sorted list is ordered |
| Sorting.SortByPermutes | old/me_concat/concatenate_multiecho.py:408 | the sorted list is a permutation of the input |
| Sorting.InsertStable | old/me_concat/concatenate_multiecho.py:408 | inserting into a sorted list puts the new element after every element it ties with |
| Sorting.SortByStable | old/me_concat/concatenate_multiecho.py:408 | `sorted` is stable: restricted to elements that tie with one another (such as files with the same number), the input order is kept |
| Sorting.SortedIntsIncrease | old/me_concat/concatenate_multiecho.py:416 | sorted distinct dictionary keys are strictly increasing |
| Sorting.StrLePreorder | old/me_concat/concatenate_multiecho.py:90 | the ordering that `sorted` uses on path strings is a total preorder |
| FileSystem.Glob | old/me_concat/concatenate_multiecho.py:145 | `glob` returns at most one path per directory entry, each the directory joined with an entry that matches the pattern |
| FileSystem.GlobMembers | old/me_concat/concatenate_multiecho.py:145 | a path is returned exactly when it is the directory joined with a non-hidden entry that ends in the suffix |
| FileSystem.DotDcmWithinDcm | old/me_concat/concatenate_multiecho.py:217 | every `*.dcm` match is a `*dcm` match, so the completeness count sees at least the files `is_scan_ME` saw |
| FileSystem.NumberedIn | old/me_concat/concatenate_multiecho.py:117-123 | each subdirectory kept from one walk entry has an all-digit name and is joined to its `dirpath` |
| FileSystem.Numbered | old/me_concat/concatenate_multiecho.py:116-123 | over the whole walk, only all-digit names are kept |
| FileSystem.NumberedMembers | old/me_concat/concatenate_multiecho.py:116-123 | a subdirectory is kept exactly when some walk entry lists its all-digit name, joined to that entry's `dirpath` |
| Patterns.PlainPattern | source/get_xnat_data.py:67 | a pattern with no `*`, `?` or `[` matches only itself (case-sensitive) |
| Patterns.MatchesStar | source/get_xnat_data.py:67 | `*` matches any run of characters, including none |
| Patterns.StarMatchesAll | source/get_xnat_data.py:67 | the pattern `*` matches every description |
| Patterns.AnyOne | source/get_xnat_data.py:67 | `?` matches exactly the one-character names |
| Patterns.RangeClass | source/get_xnat_data.py:67 | `[a-z]` matches one character within the range, bounds included |
| Patterns.NegatedClass | source/get_xnat_data.py:67 | `[!seq]` matches a single character exactly when `[seq]` does not |
| Patterns.FlankedMatchesContaining | source/get_xnat_data.py:543 | `*s*` (s free of pattern characters) matches exactly the names that contain s |
| Ordering.NumberedName | old/me_concat/concatenate_multiecho.py:403-404 | a name `<pre>-<digits>-<alnum tag>.dcm` (extension in any case) yields the value of its digits |
| Ordering.FileNumberRoundTrip | old/me_concat/concatenate_multiecho.py:403-404 | the file number written into a name is the one extracted from it |
| Ordering.FileNumberShape | old/me_concat/concatenate_multiecho.py:403-404 | conversely, every name the pattern matches has that shape (optionally followed by one newline, which `$` admits) |
| Ordering.ByFileNumberPreorder | old/me_concat/concatenate_multiecho.py:404-408 | ordering by file number is a total preorder |
| Ordering.AddFileWellFormed | old/me_concat/concatenate_multiecho.py:397-400 | one append or insertion keeps the mapping well formed: it adds the file's index as a key, leaves that bucket non-empty, and changes no other bucket |
| Ordering.GroupWellFormed | old/me_concat/concatenate_multiecho.py:395-400 | the keys of the mapping are exactly the slice indices that occur, and no bucket is empty |
| Ordering.GroupBuckets | old/me_concat/concatenate_multiecho.py:395-400 | bucket k holds exactly the files with index k, in input order |
| Ordering.GroupSizes | old/me_concat/concatenate_multiecho.py:395-400 | the bucket sizes sum to the number of files |
| Ordering.GroupPartitions | old/me_concat/concatenate_multiecho.py:395-400 | grouping partitions the files: keys, bucket contents, non-emptiness and total size together |
| Ordering.InFilter | old/me_concat/concatenate_multiecho.py:396-400 | a path is in bucket k exactly when some input pair is that path with index k |
| Ordering.FilterDistinct | old/me_concat/concatenate_multiecho.py:396-400 | with distinct paths, no bucket repeats a path |
| Ordering.FileInOneBucket | old/me_concat/concatenate_multiecho.py:395-400 | a file is in bucket k exactly when k is its own slice index |
| Ordering.GroupByIndex | old/me_concat/concatenate_multiecho.py:395-400 | the append loop builds exactly the grouped mapping |
| Ordering.SortBucketSorts | old/me_concat/concatenate_multiecho.py:403-408 | sorting a bucket fails exactly when some name does not match the pattern; otherwise the result is a permutation, fully numbered and non-decreasing in file number |
| Ordering.SortedAlongAt | old/me_concat/concatenate_multiecho.py:407-408 | visiting distinct keys in order keeps the key set, sorts exactly the visited buckets and leaves the others unchanged |
| Ordering.SortEachBucket | old/me_concat/concatenate_multiecho.py:407-408 | the in-place re-sorting loop computes `SortBuckets` |
| Ordering.SortBucketsFails | old/me_concat/concatenate_multiecho.py:404-408 | sorting the buckets fails exactly when some file name does not match the pattern |
| Ordering.SortBucketsKeeps | old/me_concat/concatenate_multiecho.py:407-408 | a successful re-sort keeps the key order and key set, and each bucket becomes its sorted self |
| Ordering.ComputeGeometry | old/me_concat/concatenate_multiecho.py:411-414 | it fails (zero divisor) exactly when echoes are 0 or there are fewer distinct indices than echoes; otherwise spatial = distinct // echoes (at least 1) and timepoints·echoes·spatial ≤ total |
| Ordering.UniformGeometry | old/me_concat/concatenate_multiecho.py:411-414 | with T files per index and distinct a multiple of echoes: timepoints = T and spatial·echoes = distinct |
| Ordering.EchoBlocks | old/me_concat/concatenate_multiecho.py:418 | one block per echo, each of n indices |
| Ordering.EchoBlockAt | old/me_concat/concatenate_multiecho.py:418 | element x of block e is `sorted_indices[e*n + x]` |
| Ordering.BlocksOrdered | old/me_concat/concatenate_multiecho.py:416-418 | blocks are pairwise disjoint and ascending, and every index of block e is below every index of block e+1 |
| Ordering.UnusedIndices | old/me_concat/concatenate_multiecho.py:418 | indices past n·echoes are in no block: they exceed every used index |
| Ordering.Plan | old/me_concat/concatenate_multiecho.py:389-428 | a successful plan has a fitting layout for exactly `echoes` echoes over all files |
| Ordering.EchoRows | old/me_concat/concatenate_multiecho.py:424-428 | one echo's table has T rows of one path per block index |
| Ordering.Table | old/me_concat/concatenate_multiecho.py:422 | `concat_file_list` has the shape echoes × timepoints × spatial |
| Ordering.Rendered | old/me_concat/concatenate_multiecho.py:429-430 | one manifest per echo block |
| Ordering.Manifests | old/me_concat/concatenate_multiecho.py:389-434 | manifests are produced exactly when the plan succeeds, with the plan's error otherwise, one per echo |
| Ordering.BlocksInKeys | old/me_concat/concatenate_multiecho.py:426-427 | every index that a block uses is a key of the mapping |
| Ordering.FillEcho | old/me_concat/concatenate_multiecho.py:424-428 | filling one echo succeeds exactly when every bucket of its block has T files, and the filled rows are that echo's rows; the cells of every other echo keep their values |
| Ordering.PlanOnceSorted | old/me_concat/concatenate_multiecho.py:416-428 | once sorting and geometry succeed, the plan fails only on a bucket shorter than the time points (the unchecked `index_mapping[index][t]`) |
| Ordering.FillAndRender | old/me_concat/concatenate_multiecho.py:420-430 | the nested loops succeed exactly when every used bucket covers the time points, and they produce the rendered manifests |
| Ordering.ArrangeBuckets | old/me_concat/concatenate_multiecho.py:395-408 | grouping then re-sorting computes `SortBuckets(Group(files))`, and its result is well formed |
| Ordering.ConcatenateScan | old/me_concat/concatenate_multiecho.py:389-434 | the whole procedure returns exactly `Manifests` |
| Ordering.PlanFailures | old/me_concat/concatenate_multiecho.py:389-414 | the failures in terms of the input: not divisible exactly when echoes do not divide the file count; no file number exactly when then some name does not match; zero divisor exactly when then fewer distinct indices than echoes |
| Ordering.PlanGeometry | old/me_concat/concatenate_multiecho.py:411-414 | a successful plan has at least one spatial slice, at least one time point, and spatial·echoes ≤ distinct indices |
| Ordering.TimepointsPositive | old/me_concat/concatenate_multiecho.py:414 | time points are positive when there are at least as many files as distinct indices |
| Ordering.SliceIndicesSorted | old/me_concat/concatenate_multiecho.py:416 | `sorted(index_mapping.keys())` is strictly increasing and holds exactly the indices that occur |
| Ordering.TableCell | old/me_concat/concatenate_multiecho.py:426-428 | table cell (e, t, x) is `Cell(l, e, t, x)` |
| Ordering.PlanLayout | old/me_concat/concatenate_multiecho.py:395-418 | a successful plan is laid out from the grouped files: blocks of sorted keys, every bucket sorted by file number |
| Ordering.CellIs | old/me_concat/concatenate_multiecho.py:426-428 | `concat_file_list[e][t][x]` is element t of the sorted bucket of `sorted_indices[e*n + x]` |
| Ordering.CellOrigin | old/me_concat/concatenate_multiecho.py:426-428 | every cell is an input file with the slice index its block names |
| Ordering.CellsDistinctAcross | old/me_concat/concatenate_multiecho.py:422-428 | with distinct input paths, cells in different (echo, slice) columns differ |
| Ordering.CellsDistinct | old/me_concat/concatenate_multiecho.py:422-428 | with distinct input paths, distinct (e, t, x) triples give distinct files |
| Ordering.SortedBucketAt | old/me_concat/concatenate_multiecho.py:408 | in a sorted numbered bucket, a later position never has a smaller file number |
| Ordering.ColumnOrdered | old/me_concat/concatenate_multiecho.py:424-428 | along time, one (echo, slice) column is non-decreasing in file number |
| Ordering.ManifestTextRoundTrip | old/me_concat/concatenate_multiecho.py:429 | splitting the manifest at newlines gives one line per time point, and splitting each line at spaces gives back that row: no trailing newline, single spaces |
| Ordering.ManifestLayout | old/me_concat/concatenate_multiecho.py:429-430 | manifest e is written to `<scan>/medata/_me<e>_infilelist`, has `timepoints` lines, and line t lists row t of echo e in ascending x |
| Ordering.ManifestPathsDistinct | old/me_concat/concatenate_multiecho.py:430 | different echoes write different manifest files |
| Ordering.UniformScan | old/me_concat/concatenate_multiecho.py:411-428 | numbered names, T files per index and a distinct count divisible by echoes give a successful plan with timepoints T and spatial·echoes = distinct |
| ScanDirs.FindScansMembers | old/me_concat/concatenate_multiecho.py:116-128 | a path is found exactly when it is a digit-named subdirectory of the walk that holds a multi-echo scan |
| ScanDirs.AsList | old/me_concat/concatenate_multiecho.py:81-82 | a non-list argument is wrapped in a one-element list; a list is unchanged |
| ScanDirs.GetScanDirsCases | old/me_concat/concatenate_multiecho.py:81-97 | error exactly when neither scans nor an exam are given; with no scans, the sorted permutation of the found multi-echo scans; given scans are returned as they are, or, when filtering, a scan is in the result exactly when it is given and multi-echo (membership only; the order is that of `Lists.Filter`, stated by `Lists.FilterAppend`) |
| ScanDirs.AsWrittenNeverReports | old/me_concat/concatenate_multiecho.py:216-224 | as written, the loop never yields a scan: it fails with `NameError` on the first incomplete one |
| ScanDirs.IncompleteAmong | old/me_concat/concatenate_multiecho.py:216-224 | as intended, it succeeds exactly when every directory has a `*dcm` file, and it yields the incomplete ones in order |
| ScanDirs.IncompleteAmongReports | old/me_concat/concatenate_multiecho.py:216-224 | a directory is reported exactly when it is listed and slices × volumes ≠ its file count |
| ScanDirs.AsWrittenAgreesOnlyWhenComplete | old/me_concat/concatenate_multiecho.py:223-224 | the written and intended versions agree exactly when no scan is incomplete |
| ScanDirs.FindIncompleteDicomSets | old/me_concat/concatenate_multiecho.py:214-224 | every directory reported is readable and incomplete |
| ScanDirs.MultiEchoReadable | old/me_concat/concatenate_multiecho.py:145-154 | a multi-echo scan directory has a `*dcm` file whose header can be read |
| ScanDirs.FindIncompleteReports | old/me_concat/concatenate_multiecho.py:214-224 | over the directories `get_scan_dirs` selects, the search fails only when `get_scan_dirs` does, and it reports exactly the incomplete ones |
| ScanDirs.ConcatScriptFor | old/me_concat/concatenate_multiecho.py:290-296 | a script exists exactly for 2 or 3 echoes; anything else is a `ValueError` |
| ScanDirs.ScriptIdentifiesEchoes | old/me_concat/concatenate_multiecho.py:290-293 | the two echo counts select different scripts |
| ScanDirs.VolumeName | old/me_concat/concatenate_multiecho.py:452 | `run{scan:04d}.e{echo:02d}` is exactly 5 + max(4, digits of scan) + max(2, digits of echo) characters long |
| ScanDirs.VolumeNameRoundTrip | old/me_concat/concatenate_multiecho.py:452 | scan and echo numbers can be read back from the volume name |
| ScanDirs.VolumeNameInjective | old/me_concat/concatenate_multiecho.py:452 | no two (scan, echo) pairs share a volume name |
| Selection.IsKeeperDecision | source/get_xnat_data.py:65-76 | with a keep list: true exactly when some keep pattern matches; else with a skip list: true exactly when no skip pattern matches; with neither: no answer |
| Selection.EmptyKeepListRejects | source/get_xnat_data.py:67-69 | an empty keep list rejects every description, whatever the skip list |
| Selection.Cleaned | source/get_xnat_data.py:656 | every element kept is non-empty and stripped |
| Selection.CleanedIs | source/get_xnat_data.py:656 | the cleaned list is the stripped pieces filtered on non-emptiness, in order |
| Selection.CleanedFrom | source/get_xnat_data.py:656 | an element is kept exactly when it is non-empty and the strip of some input piece |
| Selection.CleanedAppend | source/get_xnat_data.py:656 | cleaning keeps input order: a concatenation cleans part by part |
| Selection.CleanedBlank | source/get_xnat_data.py:505 | all-whitespace pieces leave nothing |
| Selection.CleanedOne | source/get_xnat_data.py:656 | one piece is kept stripped, or dropped when blank |
| Selection.CleanedSwap | source/get_xnat_data.py:656 | a piece may be replaced by one with the same strip without changing the result |
| Selection.CleanedSeamBefore | source/get_xnat_data.py:504-505 | whitespace pieces in front, the last run into the next piece, leave the result unchanged |
| Selection.CleanedSeamAfter | source/get_xnat_data.py:504-505 | whitespace pieces behind, the first run into the previous piece, leave the result unchanged |
| Selection.CleanedSplitBefore | source/get_xnat_data.py:504-505 | leading whitespace does not change the cleaned pieces of a split |
| Selection.CleanedSplitAfter | source/get_xnat_data.py:504-505 | trailing whitespace does not change the cleaned pieces of a split |
| Selection.CleanedSplitStripped | source/get_xnat_data.py:504-505 | the outer `strip()` before `split('\n')` does not change the cleaned lines |
| Selection.CleanedMembers | source/get_xnat_data.py:656 | membership in the cleaned list is non-empty and among the stripped pieces |
| Selection.CleanedAvoids | source/get_xnat_data.py:656 | cleaning introduces no character absent from all pieces |
| Selection.CleanedKeeps | source/get_xnat_data.py:656 | already clean pieces are kept unchanged and in order |
| Selection.ParseCommaSeparatedList | source/get_xnat_data.py:656 | the elements are non-empty, stripped and comma-free, and an entry is present exactly when it is the non-empty strip of some comma-separated piece |
| Selection.ParseAppend | source/get_xnat_data.py:656 | the entries of `a,b` are those of a followed by those of b, so input order is kept |
| Selection.ParsePiece | source/get_xnat_data.py:656 | comma-free text gives its strip as the one entry, or nothing when blank; with ParseAppend this fixes the result on every input |
| Selection.ParseJoined | source/get_xnat_data.py:656 | parsing a comma-join of clean items gives back exactly those items, in order |
| Selection.Lines | source/get_xnat_data.py:503-505 | the loaded entries are non-empty, stripped and newline-free, and an entry is present exactly when it is the non-empty strip of some line of the file |
| Selection.LinesAppend | source/get_xnat_data.py:503-505 | the entries of two blocks of lines joined by a newline are those of the first, then the second: file order is kept |
| Selection.LinesPiece | source/get_xnat_data.py:503-505 | a single line gives its strip as the one entry, or nothing when blank; with LinesAppend this fixes the result on every text |
| Selection.LinesJoined | source/get_xnat_data.py:503-505 | a text of clean lines loads as those lines, in file order |
| Selection.Flanked | source/get_xnat_data.py:543-544 | `'*' + s + '*'` starts and ends with `*` and holds s between them |
| Selection.Wildcarded | source/get_xnat_data.py:541-543 | same length, and element n is item n flanked by `*` |
| Selection.LoadList | source/get_xnat_data.py:500-514 | without `wildcard`: `alt` itself when there is no name or the read fails, else exactly `Lines` of the file's text; with `wildcard`, `Wildcarded` of that same list |
| Selection.LoadListRoundTrip | source/get_xnat_data.py:502-505 | a file written one clean entry per line loads as exactly those entries |
| Selection.WildcardIt | source/get_xnat_data.py:541-546 | a single description gives a one-element flanked list; a list gives its flanked copy, element by element |
| Selection.WildcardKeepsContaining | source/get_xnat_data.py:67 | with wildcarded keep entries, a series is kept exactly when its description contains one of them |
| Selection.CheckForFile | source/get_xnat_data.py:562-576 | no name passes through; an existing name is returned unchanged; otherwise cwd/name when it exists; otherwise an existing scriptdir/name; `IOError` exactly when none of the three exists |
| Selection.SelectionListsAsWritten | source/get_xnat_data.py:630-639 | as written: succeeds exactly when the intended version does, with the same keep list, but the skip list is only the parsed exclude list |
| Selection.SelectionLists | source/get_xnat_data.py:613-641 | with an include option: error exactly when the include file is not found, empty skip list, keep = file entries then parsed list; without one: error exactly when the exclude file is not found, empty keep list, skip = file entries then parsed list |
| Selection.ExcludeFileLost | source/get_xnat_data.py:636-637 | an exclude file holding `T1`: intended skip list `[T1]`, written one empty |
| Selection.NoIncludeRejectsEverything | source/get_xnat_data.py:627-641 | without an include option the keep list is `[]`, so `is_keeper` rejects every series |
| Selection.MatchSubjectDatesWindow | source/get_xnat_data.py:469-480 | a subject is yielded exactly when it has an experiment dated in [start, end), with defaults for missing bounds; input order is kept |
| Selection.CollisionName | source/get_xnat_data.py:411-415 | every name tried is a non-empty `collisions…` name |
| Selection.CandidatesDistinct | source/get_xnat_data.py:411-415 | `collisions`, `collisions_0`, `collisions_1`, … are pairwise distinct paths |
| Selection.TakenBound | source/get_xnat_data.py:414-416 | if the first k+1 tries all exist, more than k paths exist, so the loop ends |
| Selection.FreeCandidate | source/get_xnat_data.py:413-416 | the first try that does not exist, and the only such first one |
| Selection.CollisionDir | source/get_xnat_data.py:411-417 | the loop returns a path that does not exist: the first free name in the order tried |
| Selection.SettleLeftovers | source/get_xnat_data.py:406-417 | as intended: the temporary directory is removed when empty; otherwise the leftovers go to a collision directory that does not exist |
| Selection.LeftoversDiverge | source/get_xnat_data.py:411 | with leftovers, the written code fails on an undefined name where the intended one picks a directory |
| Legacy.MultiEchoNumbers | old/me_concat/unused/utils.py:62-73 | at most one scan number per numbered directory |
| Legacy.MultiEchoNumbersSucceeds | old/me_concat/unused/utils.py:68-69 | it succeeds exactly when every numbered directory has a `*.dcm` file (else `files[0]` raises) |
| Legacy.MultiEchoNumbersMembers | old/me_concat/unused/utils.py:62-73 | n is yielded exactly when some numbered directory named n is multi-echo |
| Legacy.ScanListCases | old/me_concat/unused/utils.py:123-124 | a single scan is wrapped; a non-empty list is kept; an empty list becomes the sorted permutation of the found scans, failing only when that search does |
| Legacy.IncompleteAmong | old/me_concat/unused/utils.py:126-138 | no more scans are yielded than were given |
| Legacy.IncompleteAmongFilters | old/me_concat/unused/utils.py:126-138 | it succeeds exactly when every scan has DICOM files, and it yields exactly the scans with volumes × slices ≠ file count, in order |
| Legacy.CheckDcmsReports | old/me_concat/unused/utils.py:123-138 | a scan is reported exactly when it is among the selected scans and its prescription does not match its file count |
| Legacy.ConcatenatedNameRoundTrip | old/me_concat/unused/utils.py:100 | scan and echo count can be read back from `run{NN}.e0{echoes}.nii` |
| Legacy.ConcatenatedNameInjective | old/me_concat/unused/utils.py:100 | different scans look for different output names |
| Legacy.CheckConcatReports | old/me_concat/unused/utils.py:97-102 | it succeeds exactly when both scans of the exam do; it reports a scan exactly when the scan is multi-echo, its last-echo output is absent from `medata`, and it is not incomplete |
| Legacy.ScriptFor | old/me_concat/unused/utils.py:208-214 | a script exactly for 2 or 3 echoes; otherwise `ValueError` |
| Legacy.ScriptForDistinguishes | old/me_concat/unused/utils.py:208-211 | 2 and 3 echoes select different scripts |
| Legacy.CommandsNameScans | old/me_concat/unused/utils.py:220-231 | one command per scan, in order: the script, then the scan number twice |
| Legacy.CallMdir | old/me_concat/unused/utils.py:208-236 | error exactly when no script exists, before anything runs; otherwise the commands of the scans and, as output, the progress text followed by the closing text |
| Legacy.QuietIsSilent | old/me_concat/unused/utils.py:222-236 | a quiet call writes nothing |
| Legacy.DotPerScan | old/me_concat/unused/utils.py:225 | a non-interactive call that is not quiet writes one dot per scan |
| Legacy.IncompleteMarkerInjective | old/me_concat/unused/utils.py:185 | different scans get different `.incomplete_runNN` markers |
| Legacy.MarkerFilesLayout | old/me_concat/unused/utils.py:182-186 | without `medata` nothing is created; with it, the status marker first, then exactly one marker per incomplete scan, naming that scan |
| Legacy.MakeCompleteAsWritten | old/me_concat/unused/utils.py:160-163 | as written, a retry always runs the 3-echo script |
| Legacy.MakeComplete | old/me_concat/unused/utils.py:160-186 | as intended, a retry runs the script for the exam's echo count, and an unsupported count is a `ValueError` |
| Legacy.CompletedStatus | old/me_concat/unused/utils.py:160-186 | `.failed` exactly when some scan is still missed, otherwise `.complete`; incomplete scans are never missed; a retry happens exactly when the first check missed something; the files created are the markers of the final state |
| Legacy.TwoEchoRetryDiffers | old/me_concat/unused/utils.py:162 | for a 2-echo exam with missed scans, the written and intended retries run different scripts |

## Left out

- DICOM header reading (`pydicom`) is not modelled. Header fields are inputs: `Disk.header` gives them, and `concatenate_scan` receives its slice indices as inputs.
- The `multiprocessing` pool is left out. Its only observable effect is an order-preserving map.
- Dimon and `nii_mdir` subprocess launches, waits and temporary directories are left out (`old/me_concat/concatenate_multiecho.py:443-485`). `Legacy.CallMdir` returns the commands it would launch instead of launching them.
- The network client in `source/get_xnat_data.py` is left out: `pull_data`'s traversal of the server, `fetch_and_organize_aux_files`, `establish_xnat_interface`, `get_data` and zip extraction. Only the choice of collision directory is modelled.
- `get_subject_selection_list` is not part of this model. It is a three-line composition of `ParseCommaSeparatedList` and `LoadList`.
- Logging and printed warnings are not modelled. `Legacy.CallMdir` is the exception: its progress text is the output of that call.
- File writes are modelled as outputs: the manifests as `Manifest(path, text)` values, the markers as the list of paths `make_complete` creates.
- `concatenate` in `old/me_concat/unused/utils.py` (directory changes and top-level glue) is left out.
- `concatenate_subject`, `concatenate_scans` and `make_complete` in `old/me_concat/concatenate_multiecho.py` are left out. They only sequence other functions. The newer `make_complete` logs, and its marker writes are commented out.
- `find_incomplete_concatenations` in `old/me_concat/concatenate_multiecho.py` is left out. It iterates over an undefined `scan` and `exam`, so it raises `NameError` whenever there is a scan. The same decision is modelled from `check_concat` (`Legacy.CheckConcat`).
- `old/me_concat/unused/utils.py:214` lacks a closing parenthesis, so the file does not parse. The model gives every function of that file its evident meaning.
- `FileSystem.Disk.walk` gives the `os.walk` triples as a list. Listing order stands for the order of `os.listdir` and `glob`.
- `Text.IsDigit` is the ASCII digits. Python's `str.isdigit` also accepts other Unicode digits.
- `Patterns` models `fnmatch` on POSIX (case-sensitive) with `*`, `?`, `[seq]`, `[!seq]` and ranges. Escaping inside classes and the translation to a regular expression are not modelled.
- Dates are integers, counted in days from 0001-01-01. Parsing by `dateutil` and the clock are left out: `now` is a parameter.
- Echo counts in `Ordering` are `nat`. A negative echo count, which Python would accept until the modulo, is not modelled.
- The `scans` argument of `old/me_concat/unused/utils.py` is a scan number or a list of scan numbers. A command-line string is not modelled.
- Legacy.MultiEchoNumbers: requires digit-only directory names. Its only caller, `FindScans`, guarantees them, as `find_scans` skips other names (`old/me_concat/unused/utils.py:65`).
- Ordering.FillEcho: in place of the `IndexError` that Python raises midway, it reports whether every bucket covered the time points. The table is then only partly filled, and the model does not describe the partial contents.

## Findings

| source | as written | input that shows it | evidently intended | confidence | as-written member | corrected member |
|---|---|---|---|---|---|---|
| old/me_concat/concatenate_multiecho.py:224 | `yield scan`, a name never defined in `find_incomplete_dicom_sets` | any scan directory whose slices × volumes differ from its DICOM count: `NameError` | `yield scan_dir` | high, not executed | ScanDirs.AsWrittenNeverReports | ScanDirs.IncompleteAmongReports |
| source/get_xnat_data.py:637 | `load_list(exclude_list)` after resolving `exclude_file` | an exclude file `skip.txt` holding `T1`, no other option: skip list `[]` | `load_list(exclude_file)`: skip list `[T1]` | high, not executed | Selection.ExcludeFileLost | Selection.SelectionLists |
| source/get_xnat_data.py:411-415 | `os.path.join(scan_dir, ...)`; `pull_data` never defines `scan_dir` | a download leaving any file in the extraction directory: `NameError` | the scan's own directory (`scan_path`) | high, not executed | Selection.LeftoversDiverge | Selection.CollisionDir |
| old/me_concat/unused/utils.py:162 | `call_mdir(missed, quiet=True)` uses the default `echoes=3` | `make_complete(exam, echoes=2)` with a missed scan: the 3-echo script is retried | `call_mdir(missed, echoes=echoes, quiet=True)` | medium, not executed | Legacy.TwoEchoRetryDiffers | Legacy.MakeComplete |
