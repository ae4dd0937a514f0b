/**
 * The selection helpers of the XNAT download script: which series to fetch
 * (`is_keeper`), how keep and skip lists are read from comma-separated
 * arguments and from files (`parse_comma_separated_list`, `load_list`,
 * `wildcard_it`, `get_series_selection_lists`), which subjects fall in a
 * date window (`match_subject_dates`), and the name of the directory that
 * takes extracted files which could not be moved (`pull_data`).
 */
module Selection {

  import opened Results
  import opened Text
  import opened Sorting
  import opened Lists
  import opened Patterns

  type Path = string

  datatype Failure =
    | IOError    // a named list file found nowhere
    | NameError  // a name the code uses but never defines

  // ---------------------------------------------------------------------------
  // is_keeper

  /**
   * `is_keeper`: with a keep list, whether some keep pattern matches; else,
   * with a skip list, whether no skip pattern matches; with neither, no
   * answer (the function falls off its end and returns `None`).
   */
  function IsKeeper(description: string, keepList: Option<seq<string>>, skipList: Option<seq<string>>): Option<bool>
  {
    if keepList.Some? then Some(|Filter(keepList.value, f => Fnmatch(description, f))| > 0)
    else if skipList.Some? then Some(|Filter(skipList.value, f => Fnmatch(description, f))| == 0)
    else None
  }

  /** The keep list decides when present; the skip list only when it is not. */
  lemma IsKeeperDecision(description: string, keepList: Option<seq<string>>, skipList: Option<seq<string>>)
    ensures var r := IsKeeper(description, keepList, skipList);
            && (keepList.Some? ==>
                  r == Some(exists k :: 0 <= k < |keepList.value| && Fnmatch(description, keepList.value[k])))
            && (keepList.None? && skipList.Some? ==>
                  r == Some(forall k :: 0 <= k < |skipList.value| ==> !Fnmatch(description, skipList.value[k])))
            && (keepList.None? && skipList.None? ==> r.None?)
  {
    if keepList.Some? {
      FilterNonEmpty(keepList.value, f => Fnmatch(description, f));
    } else if skipList.Some? {
      FilterNonEmpty(skipList.value, f => Fnmatch(description, f));
    }
  }

  /** An empty keep list fetches nothing, whatever the skip list says. */
  lemma EmptyKeepListRejects(description: string, skipList: Option<seq<string>>)
    ensures IsKeeper(description, Some([]), skipList) == Some(false)
  {
    IsKeeperDecision(description, Some([]), skipList);
  }

  // ---------------------------------------------------------------------------
  // parse_comma_separated_list, load_list

  /** `[el.strip() for el in pieces if len(el.strip()) > 0]`. */
  function Cleaned(pieces: seq<string>): (r: seq<string>)
    ensures forall k :: 0 <= k < |r| ==> r[k] != [] && IsStripped(r[k])
  {
    if pieces == [] then []
    else if Strip(pieces[0]) != [] then [Strip(pieces[0])] + Cleaned(pieces[1..])
    else Cleaned(pieces[1..])
  }

  /** `[el.strip() for el in pieces]`. */
  function StrippedEach(pieces: seq<string>): (r: seq<string>)
    ensures |r| == |pieces| && forall k :: 0 <= k < |r| ==> r[k] == Strip(pieces[k])
  {
    seq(|pieces|, k requires 0 <= k < |pieces| => Strip(pieces[k]))
  }

  predicate NonBlank(s: string)
  {
    s != []
  }

  /** Cleaning is stripping every piece, then keeping the non-empty results in order. */
  lemma {:induction false} CleanedIs(pieces: seq<string>)
    ensures Cleaned(pieces) == Filter(StrippedEach(pieces), NonBlank)
  {
    if pieces != [] {
      CleanedIs(pieces[1..]);
      assert StrippedEach(pieces)[1..] == StrippedEach(pieces[1..]);
    }
  }

  /** An element is kept exactly when it is the non-empty strip of some piece. */
  lemma CleanedFrom(pieces: seq<string>, x: string)
    ensures x in Cleaned(pieces) <==> x != [] && exists k :: 0 <= k < |pieces| && x == Strip(pieces[k])
  {
    var stripped := StrippedEach(pieces);
    CleanedIs(pieces);
    FilterMembers(stripped, NonBlank, x);
    if x in stripped {
      var k :| 0 <= k < |stripped| && stripped[k] == x;
      assert x == Strip(pieces[k]);
    }
    if exists k :: 0 <= k < |pieces| && x == Strip(pieces[k]) {
      var k :| 0 <= k < |pieces| && x == Strip(pieces[k]);
      assert stripped[k] == x;
    }
  }

  lemma CleanedMembers(pieces: seq<string>)
    ensures forall x :: x in Cleaned(pieces) <==> x != [] && x in StrippedEach(pieces)
  {
    CleanedIs(pieces);
    forall x ensures x in Cleaned(pieces) <==> x != [] && x in StrippedEach(pieces) {
      FilterMembers(StrippedEach(pieces), NonBlank, x);
    }
  }

  /** Cleaning keeps the order of the pieces: a concatenation cleans part by part. */
  lemma {:induction false} CleanedAppend(a: seq<string>, b: seq<string>)
    ensures Cleaned(a + b) == Cleaned(a) + Cleaned(b)
  {
    if a == [] {
      assert a + b == b;
    } else {
      assert (a + b)[0] == a[0] && (a + b)[1..] == a[1..] + b;
      CleanedAppend(a[1..], b);
    }
  }

  /** Pieces that are all whitespace leave nothing. */
  lemma CleanedBlank(pieces: seq<string>)
    requires forall k, i :: 0 <= k < |pieces| && 0 <= i < |pieces[k]| ==> IsSpace(pieces[k][i])
    ensures Cleaned(pieces) == []
  {
    forall k | 0 <= k < |pieces| ensures Strip(pieces[k]) == [] {
      StripAllSpace(pieces[k]);
    }
    CleanedIs(pieces);
    FilterNone(StrippedEach(pieces), NonBlank);
  }

  /** A single piece is kept, stripped, unless it is blank. */
  lemma CleanedOne(p: string)
    ensures Cleaned([p]) == if Strip(p) == [] then [] else [Strip(p)]
  {
    assert [p][1..] == [];
  }

  /** A piece can be swapped for another that strips to the same text. */
  lemma CleanedSwap(a: seq<string>, x: string, y: string, b: seq<string>)
    requires Strip(x) == Strip(y)
    ensures Cleaned(a + [x] + b) == Cleaned(a + [y] + b)
  {
    CleanedOne(x);
    CleanedOne(y);
    CleanedAppend(a, [x]);
    CleanedAppend(a + [x], b);
    CleanedAppend(a, [y]);
    CleanedAppend(a + [y], b);
  }

  /** Pieces of whitespace in front: the last runs into the first piece that follows and strips away. */
  lemma CleanedSeamBefore(w: seq<string>, m: seq<string>)
    requires |w| >= 1 && |m| >= 1
    requires forall k, i :: 0 <= k < |w| && 0 <= i < |w[k]| ==> IsSpace(w[k][i])
    ensures Cleaned(Seam(w, m)) == Cleaned(m)
  {
    var blank, last := w[..|w| - 1], w[|w| - 1];
    assert Strip(last + m[0]) == Strip(m[0]) by {
      assert forall i :: 0 <= i < |last| ==> IsSpace(last[i]);
      StripSpaceBefore(last, m[0]);
    }
    assert Seam(w, m) == blank + [last + m[0]] + m[1..];
    CleanedSwap(blank, last + m[0], m[0], m[1..]);
    AppendHead(blank, m);
    CleanedBlank(blank);
    CleanedAppend(blank, m);
  }

  /** Pieces of whitespace behind: the first runs into the last piece before it and strips away. */
  lemma CleanedSeamAfter(m: seq<string>, v: seq<string>)
    requires |m| >= 1 && |v| >= 1
    requires forall k, i :: 0 <= k < |v| && 0 <= i < |v[k]| ==> IsSpace(v[k][i])
    ensures Cleaned(Seam(m, v)) == Cleaned(m)
  {
    var init, last, first := m[..|m| - 1], m[|m| - 1], v[0];
    assert Strip(last + first) == Strip(last) by {
      assert forall i :: 0 <= i < |first| ==> IsSpace(first[i]);
      StripSpaceAfter(last, first);
    }
    assert Seam(m, v) == init + [last + first] + v[1..];
    CleanedSwap(init, last + first, last, v[1..]);
    InitLast(m);
    assert Cleaned(v[1..]) == [] by {
      CleanedBlank(v[1..]);
    }
    CleanedAppend(m, v[1..]);
    assert m + v[1..] + [] == m + v[1..];
  }

  /** Whitespace before the text does not change its cleaned pieces. */
  lemma CleanedSplitBefore(pre: string, mid: string, sep: char)
    requires forall i :: 0 <= i < |pre| ==> IsSpace(pre[i])
    ensures Cleaned(Split(pre + mid, sep)) == Cleaned(Split(mid, sep))
  {
    SplitConcat(pre, mid, sep);
    SplitAllSpace(pre, sep);
    CleanedSeamBefore(Split(pre, sep), Split(mid, sep));
  }

  /** Whitespace after the text does not change its cleaned pieces. */
  lemma CleanedSplitAfter(mid: string, post: string, sep: char)
    requires forall i :: 0 <= i < |post| ==> IsSpace(post[i])
    ensures Cleaned(Split(mid + post, sep)) == Cleaned(Split(mid, sep))
  {
    SplitConcat(mid, post, sep);
    SplitAllSpace(post, sep);
    CleanedSeamAfter(Split(mid, sep), Split(post, sep));
  }

  /** Stripping the whole text first does not change its cleaned pieces. */
  lemma CleanedSplitStripped(text: string, sep: char)
    ensures Cleaned(Split(Strip(text), sep)) == Cleaned(Split(text, sep))
  {
    var lo := StripTrims(text);
    var hi := lo + |Strip(text)|;
    var pre, post := text[..lo], text[hi..];
    assert text == (pre + Strip(text)) + post;
    CleanedSplitAfter(pre + Strip(text), post, sep);
    CleanedSplitBefore(pre, Strip(text), sep);
  }

  /** A character absent from every piece is absent from every cleaned element. */
  lemma CleanedAvoids(pieces: seq<string>, c: char)
    requires forall k :: 0 <= k < |pieces| ==> c !in pieces[k]
    ensures forall k :: 0 <= k < |Cleaned(pieces)| ==> c !in Cleaned(pieces)[k]
  {
    forall k | 0 <= k < |Cleaned(pieces)| ensures c !in Cleaned(pieces)[k] {
      var x := Cleaned(pieces)[k];
      CleanedFrom(pieces, x);
      var j :| 0 <= j < |pieces| && x == Strip(pieces[j]);
      StripKeepsOut(pieces[j], c);
    }
  }

  /** Elements that are already stripped and non-empty pass through unchanged. */
  lemma {:induction false} CleanedKeeps(items: seq<string>)
    requires forall k :: 0 <= k < |items| ==> items[k] != [] && IsStripped(items[k])
    ensures Cleaned(items) == items
  {
    if items != [] {
      StripStripped(items[0]);
      CleanedKeeps(items[1..]);
    }
  }

  /**
   * `parse_comma_separated_list`: an entry is kept exactly when it is the
   * non-empty strip of some piece between commas (the order is stated by
   * `ParseAppend`, the single piece by `ParsePiece`).
   */
  function ParseCommaSeparatedList(text: string): (r: seq<string>)
    ensures forall k :: 0 <= k < |r| ==> r[k] != [] && IsStripped(r[k]) && ',' !in r[k]
    ensures forall x :: x in r <==> x != [] && x in StrippedEach(Split(text, ','))
  {
    var pieces := Split(text, ',');
    CleanedAvoids(pieces, ',');
    CleanedMembers(pieces);
    Cleaned(pieces)
  }

  /** The entries of `a,b` are those of `a` followed by those of `b`: input order is kept. */
  lemma ParseAppend(a: string, b: string)
    ensures ParseCommaSeparatedList(a + [','] + b) == ParseCommaSeparatedList(a) + ParseCommaSeparatedList(b)
  {
    SplitAppend(a, ',', b);
    CleanedAppend(Split(a, ','), Split(b, ','));
  }

  /** Text without a comma is one entry, stripped, or none when it is blank. */
  lemma ParsePiece(s: string)
    requires ',' !in s
    ensures ParseCommaSeparatedList(s) == if Strip(s) == [] then [] else [Strip(s)]
  {
    SplitNoSep(s, ',');
    CleanedOne(s);
  }

  /** Items that are stripped, non-empty and free of commas survive a join with commas and a parse. */
  lemma {:induction false} ParseJoined(items: seq<string>)
    requires forall k :: 0 <= k < |items| ==> items[k] != [] && IsStripped(items[k]) && ',' !in items[k]
    ensures ParseCommaSeparatedList(Join(items, ',')) == items
  {
    if items == [] {
      assert Split([], ',') == [[]];
      assert Strip([]) == [];
    } else {
      SplitJoin(items, ',');
      CleanedKeeps(items);
    }
  }

  /**
   * The lines of a list file, `txt.strip().split('\n')` each stripped and the
   * blank ones dropped: an entry is kept exactly when it is the non-empty
   * strip of some line of the text (the order is stated by `LinesAppend`,
   * the single line by `LinesPiece`).
   */
  function Lines(text: string): (r: seq<string>)
    ensures forall k :: 0 <= k < |r| ==> r[k] != [] && IsStripped(r[k]) && '\n' !in r[k]
    ensures forall x :: x in r <==> x != [] && x in StrippedEach(Split(text, '\n'))
  {
    var pieces := Split(text, '\n');
    CleanedAvoids(Split(Strip(text), '\n'), '\n');
    CleanedSplitStripped(text, '\n');
    CleanedMembers(pieces);
    assert Cleaned(Split(Strip(text), '\n')) == Cleaned(pieces);
    Cleaned(Split(Strip(text), '\n'))
  }

  /** The entries of two blocks of lines joined by a newline are those of the first, then the second. */
  lemma LinesAppend(a: string, b: string)
    ensures Lines(a + ['\n'] + b) == Lines(a) + Lines(b)
  {
    CleanedSplitStripped(a + ['\n'] + b, '\n');
    CleanedSplitStripped(a, '\n');
    CleanedSplitStripped(b, '\n');
    SplitAppend(a, '\n', b);
    CleanedAppend(Split(a, '\n'), Split(b, '\n'));
  }

  /** A single line is one entry, stripped, or none when it is blank. */
  lemma LinesPiece(s: string)
    requires '\n' !in s
    ensures Lines(s) == if Strip(s) == [] then [] else [Strip(s)]
  {
    CleanedSplitStripped(s, '\n');
    SplitNoSep(s, '\n');
    CleanedOne(s);
  }

  /** A file holding one clean entry per line reads back as exactly those entries. */
  lemma {:induction false} LinesJoined(items: seq<string>)
    requires forall k :: 0 <= k < |items| ==> items[k] != [] && IsStripped(items[k]) && '\n' !in items[k]
    ensures Lines(Join(items, '\n')) == items
  {
    if items == [] {
      assert Split([], '\n') == [[]];
      assert Strip([]) == [];
    } else {
      var text := Join(items, '\n');
      assert Strip(text) == text by {
        JoinEnds(items, '\n');
        StripStripped(text);
      }
      assert Split(text, '\n') == items by {
        SplitJoin(items, '\n');
      }
      CleanedKeeps(items);
    }
  }

  /** A pattern that opens and closes with `*`. */
  predicate Starred(s: string)
  {
    |s| >= 2 && s[0] == '*' && s[|s| - 1] == '*'
  }

  /** `'*' + s + '*'`. */
  function Flanked(s: string): (r: string)
    ensures Starred(r) && r[1..|r| - 1] == s
  {
    "*" + s + "*"
  }

  /** Every item flanked by wildcards, in order: what `wildcard_it` returns for a list. */
  function Wildcarded(items: seq<string>): (r: seq<string>)
    ensures |r| == |items| && forall n :: 0 <= n < |r| ==> Starred(r[n]) && r[n][1..|r[n]| - 1] == items[n]
  {
    seq(|items|, n requires 0 <= n < |items| => Flanked(items[n]))
  }

  /**
   * `load_list`: the clean lines of the named file; with no name, or a file
   * that cannot be read, a copy of `alt`; with `wildcard`, flanked.
   */
  function LoadList(fname: Option<Path>, alt: seq<string>, wildcard: bool, read: Path -> Option<string>): (r: seq<string>)
    ensures |r| == |if fname.Some? && read(fname.value).Some? then Lines(read(fname.value).value) else alt|
    ensures !wildcard && (fname.None? || read(fname.value).None?) ==> r == alt
    ensures !wildcard && fname.Some? && read(fname.value).Some? ==> r == Lines(read(fname.value).value)
    ensures wildcard ==> r == Wildcarded(if fname.Some? && read(fname.value).Some? then Lines(read(fname.value).value) else alt)
  {
    var loaded := if fname.Some? && read(fname.value).Some? then Lines(read(fname.value).value) else alt;
    if wildcard then Wildcarded(loaded) else loaded
  }

  /** A file written one clean entry per line loads as those entries. */
  lemma LoadListRoundTrip(fname: Path, items: seq<string>, alt: seq<string>, read: Path -> Option<string>)
    requires read(fname) == Some(Join(items, '\n'))
    requires forall k :: 0 <= k < |items| ==> items[k] != [] && IsStripped(items[k]) && '\n' !in items[k]
    ensures LoadList(Some(fname), alt, false, read) == items
  {
    LinesJoined(items);
  }

  // ---------------------------------------------------------------------------
  // wildcard_it

  /** The argument of `wildcard_it`: a single description or a list of them. */
  datatype Descriptions = One(description: string) | Many(items: seq<string>)

  /**
   * `wildcard_it`: a list is copied and each element of the copy is replaced
   * by its flanked form; a single description becomes a one-element list.
   */
  method WildcardIt(descrip: Descriptions) returns (r: seq<string>)
    ensures descrip.One? ==> r == [Flanked(descrip.description)]
    ensures descrip.Many? ==> r == Wildcarded(descrip.items)
  {
    match descrip
    case One(s) =>
      r := [Flanked(s)];
    case Many(items) =>
      var copy := new string[|items|](n requires 0 <= n < |items| => items[n]);
      for n := 0 to copy.Length
        invariant forall m :: 0 <= m < n ==> copy[m] == Flanked(items[m])
        invariant forall m :: n <= m < copy.Length ==> copy[m] == items[m]
      {
        copy[n] := Flanked(copy[n]);
      }
      r := copy[..];
  }

  /**
   * With wildcard-flanked keep patterns, a series is fetched exactly when its
   * description contains one of the entries (entries without pattern characters).
   */
  lemma WildcardKeepsContaining(description: string, items: seq<string>, skipList: Option<seq<string>>)
    requires forall k :: 0 <= k < |items| ==> AllPlain(items[k])
    ensures IsKeeper(description, Some(Wildcarded(items)), skipList)
            == Some(exists k :: 0 <= k < |items| && Contains(description, items[k]))
  {
    var pats := Wildcarded(items);
    IsKeeperDecision(description, Some(pats), skipList);
    forall k | 0 <= k < |items|
      ensures Fnmatch(description, pats[k]) <==> Contains(description, items[k])
    {
      FlankedMatchesContaining(description, items[k]);
    }
  }

  // ---------------------------------------------------------------------------
  // check_for_file, get_series_selection_lists

  /** The parts of the environment the list helpers consult. */
  datatype Env = Env(
    present: Path -> bool,         // os.path.exists
    read: Path -> Option<string>,  // the text of a readable file
    cwd: Path,                     // os.getcwd()
    scriptDir: Path)               // the directory of the script itself

  /**
   * `check_for_file`: a name that exists is kept; otherwise it is looked up
   * in the working directory, then next to the script; found nowhere, it
   * is an error. No name passes through.
   */
  function CheckForFile(fname: Option<Path>, env: Env): (r: Result<Option<Path>, Failure>)
    ensures fname.None? ==> r == Ok(None)
    ensures fname.Some? && env.present(fname.value) ==> r == Ok(fname)
    ensures fname.Some? && !env.present(fname.value) && env.present(PathJoin(env.cwd, fname.value)) ==>
              r == Ok(Some(PathJoin(env.cwd, fname.value)))
    ensures fname.Some? && r.Ok? ==>
              (r.value.Some? && env.present(r.value.value)
               && r.value.value in {fname.value, PathJoin(env.cwd, fname.value), PathJoin(env.scriptDir, fname.value)})
    ensures fname.Some? && r.Err? <==>
            fname.Some? && !env.present(fname.value) && !env.present(PathJoin(env.cwd, fname.value))
            && !env.present(PathJoin(env.scriptDir, fname.value))
  {
    if fname.None? || env.present(fname.value) then Ok(fname)
    else if env.present(PathJoin(env.cwd, fname.value)) then Ok(Some(PathJoin(env.cwd, fname.value)))
    else if env.present(PathJoin(env.scriptDir, fname.value)) then Ok(Some(PathJoin(env.scriptDir, fname.value)))
    else Err(IOError)
  }

  /** The keep and skip lists `get_series_selection_lists` returns (both always lists). */
  datatype SeriesLists = SeriesLists(keep: seq<string>, skip: seq<string>)

  function ParsedOr(list: Option<string>): seq<string>
  {
    if list.Some? then ParseCommaSeparatedList(list.value) else []
  }

  /** The entries of a resolved list file, or nothing when no file was named. */
  function FileEntries(file: Option<Path>, env: Env): seq<string>
  {
    if file.Some? then LoadList(file, [], false, env.read) else []
  }

  /**
   * `get_series_selection_lists` as written: the exclude file is resolved, but
   * the call that should read it is handed the exclude list instead (a parsed
   * list or `None`), which `load_list` cannot open, so it contributes nothing.
   */
  function SelectionListsAsWritten(env: Env, includeFile: Option<Path>, includeList: Option<string>,
                                   excludeFile: Option<Path>, excludeList: Option<string>): (r: Result<SeriesLists, Failure>)
    ensures var intended := SelectionLists(env, includeFile, includeList, excludeFile, excludeList);
            && (r.Ok? <==> intended.Ok?)
            && (r.Ok? ==> r.value.keep == intended.value.keep
                          && r.value.skip == (if includeFile.Some? || includeList.Some? then [] else ParsedOr(excludeList)))
  {
    var including := includeFile.Some? || includeList.Some?;
    var exFile := if including then None else excludeFile;
    var exList := if including then None else excludeList;
    match CheckForFile(includeFile, env)
    case Err(e) => Err(e)
    case Ok(inc) =>
      match CheckForFile(exFile, env)
      case Err(e) => Err(e)
      case Ok(ex) =>
        var fromFile := if ex.Some? then LoadList(None, [], false, env.read) else [];
        Ok(SeriesLists(FileEntries(inc, env) + ParsedOr(includeList), fromFile + ParsedOr(exList)))
  }

  /**
   * `get_series_selection_lists` as intended: any include option discards both
   * exclude options; the keep list is the include file's entries followed by
   * the parsed include list, the skip list likewise for the exclude options.
   */
  function SelectionLists(env: Env, includeFile: Option<Path>, includeList: Option<string>,
                          excludeFile: Option<Path>, excludeList: Option<string>): (r: Result<SeriesLists, Failure>)
    ensures includeFile.Some? || includeList.Some? ==>
              && (r.Err? <==> Unfound(includeFile, env))
              && (r.Ok? ==> r.value.skip == []
                            && r.value.keep == FileEntries(CheckForFile(includeFile, env).value, env) + ParsedOr(includeList))
    ensures includeFile.None? && includeList.None? ==>
              && (r.Err? <==> Unfound(excludeFile, env))
              && (r.Ok? ==> r.value.keep == []
                            && r.value.skip == FileEntries(CheckForFile(excludeFile, env).value, env) + ParsedOr(excludeList))
  {
    var including := includeFile.Some? || includeList.Some?;
    var exFile := if including then None else excludeFile;
    var exList := if including then None else excludeList;
    match CheckForFile(includeFile, env)
    case Err(e) => Err(e)
    case Ok(inc) =>
      match CheckForFile(exFile, env)
      case Err(e) => Err(e)
      case Ok(ex) =>
        Ok(SeriesLists(FileEntries(inc, env) + ParsedOr(includeList), FileEntries(ex, env) + ParsedOr(exList)))
  }

  /** A named file that cannot be found anywhere. */
  predicate Unfound(file: Option<Path>, env: Env)
  {
    file.Some? && CheckForFile(file, env).Err?
  }

  /**
   * An exclude file `skip.txt` holding `T1`, and no other option: the intended
   * skip list is `[T1]`, the written one empty.
   */
  lemma ExcludeFileLost(env: Env)
    requires env.present("skip.txt") && env.read("skip.txt") == Some("T1")
    ensures SelectionLists(env, None, None, Some("skip.txt"), None) == Ok(SeriesLists([], ["T1"]))
    ensures SelectionListsAsWritten(env, None, None, Some("skip.txt"), None) == Ok(SeriesLists([], []))
  {
    assert FileEntries(Some("skip.txt"), env) == ["T1"] by {
      assert Join(["T1"], '\n') == "T1";
      assert IsStripped("T1");
      LoadListRoundTrip("skip.txt", ["T1"], [], env.read);
    }
    assert CheckForFile(Some("skip.txt"), env) == Ok(Some("skip.txt"));
    assert ParsedOr(None) == [];
    var r := SelectionLists(env, None, None, Some("skip.txt"), None);
    assert r.Ok? && r.value.keep == [] && r.value.skip == ["T1"];
  }

  /**
   * The lists always reach `is_keeper` as lists: without an include option the
   * keep list is empty, so every series is rejected and the skip list is
   * never consulted.
   */
  lemma NoIncludeRejectsEverything(env: Env, excludeFile: Option<Path>, excludeList: Option<string>, description: string)
    requires SelectionLists(env, None, None, excludeFile, excludeList).Ok?
    ensures var l := SelectionLists(env, None, None, excludeFile, excludeList).value;
            IsKeeper(description, Some(l.keep), Some(l.skip)) == Some(false)
  {
    var l := SelectionLists(env, None, None, excludeFile, excludeList).value;
    EmptyKeepListRejects(description, Some(l.skip));
  }

  // ---------------------------------------------------------------------------
  // match_subject_dates

  /**
   * Dates are days counted from 0001-01-01, the default start; `now` stands
   * for the moment of the call, the default end.
   */
  type Date = int

  const EarliestDate: Date := 0

  /** Whether a subject's first experiment falls in `[start, end)`; a subject without experiment never does. */
  predicate InWindow(date: Option<Date>, start: Date, end: Date)
  {
    date.Some? && start <= date.value && date.value < end
  }

  /** `match_subject_dates`: the subjects whose first experiment lies in the window, in input order. */
  function MatchSubjectDates(subjects: seq<string>, experimentDate: string -> Option<Date>,
                             start: Option<Date>, end: Option<Date>, now: Date): seq<string>
  {
    var lo := if start.Some? then start.value else EarliestDate;
    var hi := if end.Some? then end.value else now;
    Filter(subjects, s => InWindow(experimentDate(s), lo, hi))
  }

  /**
   * A subject is yielded exactly when it has an experiment dated in the
   * half-open window; matching a concatenation matches each part in turn.
   */
  lemma MatchSubjectDatesWindow(subjects: seq<string>, more: seq<string>, experimentDate: string -> Option<Date>,
                                start: Option<Date>, end: Option<Date>, now: Date, s: string)
    ensures var lo := if start.Some? then start.value else EarliestDate;
            var hi := if end.Some? then end.value else now;
            s in MatchSubjectDates(subjects, experimentDate, start, end, now) <==>
              s in subjects && experimentDate(s).Some? && lo <= experimentDate(s).value < hi
    ensures MatchSubjectDates(subjects + more, experimentDate, start, end, now)
            == MatchSubjectDates(subjects, experimentDate, start, end, now)
               + MatchSubjectDates(more, experimentDate, start, end, now)
  {
    var lo := if start.Some? then start.value else EarliestDate;
    var hi := if end.Some? then end.value else now;
    FilterMembers(subjects, s => InWindow(experimentDate(s), lo, hi), s);
    FilterAppend(subjects, more, s => InWindow(experimentDate(s), lo, hi));
  }

  // ---------------------------------------------------------------------------
  // The collision directory of pull_data

  /** The names tried in turn: `collisions`, then `collisions_0`, `collisions_1`, ... */
  function CollisionName(k: nat): (r: string)
    ensures r != [] && r[0] == 'c'
  {
    if k == 0 then "collisions" else "collisions_" + NatToString(k - 1)
  }

  function Candidate(base: Path, k: nat): Path
  {
    PathJoin(base, CollisionName(k))
  }

  /** No two tries name the same directory. */
  lemma CandidatesDistinct(base: Path, i: nat, j: nat)
    requires i != j
    ensures Candidate(base, i) != Candidate(base, j)
  {
    if Candidate(base, i) == Candidate(base, j) {
      PathJoinInjective(base, CollisionName(i), CollisionName(j));
      if i > 0 && j > 0 {
        assert CollisionName(i)[11..] == NatToString(i - 1);
        assert CollisionName(j)[11..] == NatToString(j - 1);
        DecimalInjective(i - 1, j - 1);
      }
      assert false;
    }
  }

  lemma {:induction false} SubsetSize<T>(a: set<T>, b: set<T>)
    requires a <= b
    ensures |a| <= |b|
    decreases |a|
  {
    if a != {} {
      var x :| x in a;
      SubsetSize(a - {x}, b - {x});
    }
  }

  /** When the first `k + 1` tries all exist, at least `k + 1` paths exist. */
  lemma TakenBound(base: Path, taken: set<Path>, k: nat)
    requires forall j :: 0 <= j <= k ==> Candidate(base, j) in taken
    ensures k < |taken|
  {
    var tries := seq(k + 1, j requires 0 <= j <= k => Candidate(base, j));
    forall i, j | 0 <= i < j < |tries| ensures tries[i] != tries[j] {
      CandidatesDistinct(base, i, j);
    }
    DistinctCard(tries);
    var seen := set x | x in tries;
    SubsetSize(seen, taken);
  }

  /** The `k`-th try is the first that does not exist. */
  predicate FirstFree(base: Path, taken: set<Path>, k: nat)
  {
    Candidate(base, k) !in taken && forall j :: 0 <= j < k ==> Candidate(base, j) in taken
  }

  /** The first free try at or after `k`, when every earlier one exists. */
  function FreeCandidate(base: Path, taken: set<Path>, k: nat): (r: nat)
    requires forall j :: 0 <= j < k ==> Candidate(base, j) in taken
    ensures k <= r && FirstFree(base, taken, r)
    ensures forall j :: FirstFree(base, taken, j) ==> j == r
    decreases |taken| - k
  {
    if Candidate(base, k) !in taken then k
    else
      TakenBound(base, taken, k);
      FreeCandidate(base, taken, k + 1)
  }

  /**
   * The `while os.path.exists(collision_dir)` loop: tries names in turn until
   * one does not exist. `taken` is the finite set of existing paths.
   */
  method CollisionDir(base: Path, taken: set<Path>) returns (dir: Path)
    ensures dir !in taken
    ensures dir == Candidate(base, FreeCandidate(base, taken, 0))
  {
    dir := PathJoin(base, "collisions");
    var num := 0;
    while dir in taken
      invariant dir == Candidate(base, num)
      invariant forall j :: 0 <= j < num ==> Candidate(base, j) in taken
      invariant FreeCandidate(base, taken, num) == FreeCandidate(base, taken, 0)
      decreases |taken| - num
    {
      TakenBound(base, taken, num);
      dir := PathJoin(base, "collisions_" + NatToString(num));
      num := num + 1;
    }
  }

  /**
   * What happens to the temporary extraction directory, as written: with
   * nothing left in it, it is removed (`None`); otherwise the collision name
   * is built from `scan_dir`, a name `pull_data` never defines.
   */
  function SettleLeftoversAsWritten(remaining: seq<string>): Result<Option<Path>, Failure>
  {
    if |remaining| == 0 then Ok(None) else Err(NameError)
  }

  /** As intended: leftover files go to the first free collision directory of the scan directory. */
  function SettleLeftovers(scanPath: Path, remaining: seq<string>, taken: set<Path>): (r: Result<Option<Path>, Failure>)
    ensures r.Ok?
    ensures r.value.Some? <==> |remaining| > 0
    ensures r.value.Some? ==> r.value.value !in taken
  {
    if |remaining| == 0 then Ok(None) else Ok(Some(Candidate(scanPath, FreeCandidate(scanPath, taken, 0))))
  }

  /** Whenever a file is left over, the written code fails where the intended one finds a free directory. */
  lemma LeftoversDiverge(scanPath: Path, remaining: seq<string>, taken: set<Path>)
    requires |remaining| > 0
    ensures SettleLeftoversAsWritten(remaining) == Err(NameError)
    ensures SettleLeftovers(scanPath, remaining, taken).value.Some?
  {
  }
}
