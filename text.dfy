/**
 * The Python string operations the scripts rely on, modelled on `seq<char>`:
 * `str.strip`, `str.split(sep)` with a one-character separator, `sep.join`,
 * `str(n)` and `int(digits)` for non-negative integers, `str.zfill`,
 * `str.isdigit` (ASCII digits only) and the two-argument `os.path.join` of POSIX.
 */
module Text {

  import opened Results

  /** Python's `str.isspace`: the characters that `strip()` removes. */
  predicate IsSpace(c: char)
  {
    c == ' ' || ('\t' <= c <= '\r') || ('\U{1c}' <= c <= '\U{1f}') || c == '\U{85}' || c == '\U{a0}'
    || c == '\U{1680}' || ('\U{2000}' <= c <= '\U{200a}') || c == '\U{2028}' || c == '\U{2029}'
    || c == '\U{202f}' || c == '\U{205f}' || c == '\U{3000}'
  }

  /** The regular-expression class `[0-9]`. */
  predicate IsDigit(c: char)
  {
    '0' <= c <= '9'
  }

  /** The regular-expression class `[0-9a-zA-Z]`. */
  predicate IsAlnum(c: char)
  {
    IsDigit(c) || ('a' <= c <= 'z') || ('A' <= c <= 'Z')
  }

  /** A non-empty string of ASCII digits (`str.isdigit` restricted to ASCII). */
  predicate IsDigits(s: string)
  {
    |s| > 0 && forall i :: 0 <= i < |s| ==> IsDigit(s[i])
  }

  // ---------------------------------------------------------------------------
  // strip

  /** No whitespace at either end. */
  predicate IsStripped(s: string)
  {
    s == [] || (!IsSpace(s[0]) && !IsSpace(s[|s| - 1]))
  }

  /** The end of the run of whitespace that starts at `i`. */
  function SpacesFrom(s: string, i: nat): (n: nat)
    requires i <= |s|
    ensures i <= n <= |s| && (n < |s| ==> !IsSpace(s[n]))
    ensures forall k :: i <= k < n ==> IsSpace(s[k])
    decreases |s| - i
  {
    if i == |s| || !IsSpace(s[i]) then i else SpacesFrom(s, i + 1)
  }

  /** The start of the run of whitespace that ends at `j`, going no further back than `lo`. */
  function SpacesBefore(s: string, lo: nat, j: nat): (n: nat)
    requires lo <= j <= |s|
    ensures lo <= n <= j && (lo < n ==> !IsSpace(s[n - 1]))
    ensures forall k :: n <= k < j ==> IsSpace(s[k])
    decreases j
  {
    if j == lo || !IsSpace(s[j - 1]) then j else SpacesBefore(s, lo, j - 1)
  }

  /** Python's `s.strip()`: whitespace removed from both ends. */
  function Strip(s: string): (r: string)
    ensures IsStripped(r) && |r| <= |s|
  {
    var lo := SpacesFrom(s, 0);
    s[lo..SpacesBefore(s, lo, |s|)]
  }

  /**
   * What `strip()` removes is whitespace only: the result is the stretch
   * `s[lo..lo + |r|]` of the input, and everything outside it is whitespace.
   */
  lemma StripTrims(s: string) returns (lo: nat)
    ensures lo + |Strip(s)| <= |s| && Strip(s) == s[lo..lo + |Strip(s)|]
    ensures forall i :: 0 <= i < lo ==> IsSpace(s[i])
    ensures forall i :: lo + |Strip(s)| <= i < |s| ==> IsSpace(s[i])
  {
    lo := SpacesFrom(s, 0);
  }

  /** Stripping a string that has no whitespace at its ends changes nothing. */
  lemma StripStripped(s: string)
    requires IsStripped(s)
    ensures Strip(s) == s
  {
    if s != [] {
      assert SpacesFrom(s, 0) == 0;
      assert SpacesBefore(s, 0, |s|) == |s|;
    }
  }

  /** A character absent from a string is absent from its stripped form. */
  lemma StripKeepsOut(s: string, c: char)
    requires c !in s
    ensures c !in Strip(s)
  {
    var lo := StripTrims(s);
  }

  /** An all-whitespace string strips to the empty string. */
  lemma StripAllSpace(s: string)
    requires forall i :: 0 <= i < |s| ==> IsSpace(s[i])
    ensures Strip(s) == []
  {
    assert SpacesFrom(s, 0) == |s|;
  }

  lemma {:induction false} SpacesFromIs(s: string, i: nat, n: nat)
    requires i <= n <= |s| && (n < |s| ==> !IsSpace(s[n]))
    requires forall k :: i <= k < n ==> IsSpace(s[k])
    ensures SpacesFrom(s, i) == n
    decreases n - i
  {
    if i < n {
      SpacesFromIs(s, i + 1, n);
    }
  }

  lemma {:induction false} SpacesBeforeIs(s: string, lo: nat, j: nat, n: nat)
    requires lo <= n <= j <= |s| && (lo < n ==> !IsSpace(s[n - 1]))
    requires forall k :: n <= k < j ==> IsSpace(s[k])
    ensures SpacesBefore(s, lo, j) == n
    decreases j
  {
    if n < j {
      SpacesBeforeIs(s, lo, j - 1, n);
    }
  }

  /** A stripped middle between two runs of whitespace is what `strip()` returns. */
  lemma StripIs(pre: string, mid: string, post: string)
    requires forall i :: 0 <= i < |pre| ==> IsSpace(pre[i])
    requires forall i :: 0 <= i < |post| ==> IsSpace(post[i])
    requires IsStripped(mid)
    ensures Strip(pre + mid + post) == mid
  {
    var s := pre + mid + post;
    if mid == [] {
      StripAllSpace(s);
    } else {
      assert s[|pre|] == mid[0];
      SpacesFromIs(s, 0, |pre|);
      assert s[|pre| + |mid| - 1] == mid[|mid| - 1];
      SpacesBeforeIs(s, |pre|, |s|, |pre| + |mid|);
      assert s[|pre|..|pre| + |mid|] == mid;
    }
  }

  /** Whitespace added around a string does not change what it strips to. */
  lemma StripSpaceAround(w1: string, s: string, w2: string)
    requires forall i :: 0 <= i < |w1| ==> IsSpace(w1[i])
    requires forall i :: 0 <= i < |w2| ==> IsSpace(w2[i])
    ensures Strip(w1 + s + w2) == Strip(s)
  {
    var lo := StripTrims(s);
    var mid := Strip(s);
    var hi := lo + |mid|;
    var pre, post := w1 + s[..lo], s[hi..] + w2;
    forall i | 0 <= i < |pre| ensures IsSpace(pre[i]) {
      if i >= |w1| { assert pre[i] == s[i - |w1|]; }
    }
    forall i | 0 <= i < |post| ensures IsSpace(post[i]) {
      if i < |s| - hi { assert post[i] == s[hi + i]; }
    }
    assert s == s[..lo] + mid + s[hi..];
    assert w1 + s + w2 == pre + mid + post;
    StripIs(pre, mid, post);
  }

  lemma StripSpaceBefore(w: string, s: string)
    requires forall i :: 0 <= i < |w| ==> IsSpace(w[i])
    ensures Strip(w + s) == Strip(s)
  {
    StripSpaceAround(w, s, []);
    assert w + s + [] == w + s;
  }

  lemma StripSpaceAfter(s: string, w: string)
    requires forall i :: 0 <= i < |w| ==> IsSpace(w[i])
    ensures Strip(s + w) == Strip(s)
  {
    StripSpaceAround([], s, w);
    assert [] + s + w == s + w;
  }

  // ---------------------------------------------------------------------------
  // split and join

  /**
   * Python's `s.split(sep)` for a one-character separator: the pieces between
   * separators, always at least one piece, none containing the separator.
   */
  function Split(s: string, sep: char): (r: seq<string>)
    ensures |r| >= 1
    ensures forall k :: 0 <= k < |r| ==> sep !in r[k]
    decreases |s|
  {
    if |s| == 0 then [[]]
    else
      var rest := Split(s[1..], sep);
      if s[0] == sep then [[]] + rest else [[s[0]] + rest[0]] + rest[1..]
  }

  /** Python's `sep.join(parts)`. */
  function Join(parts: seq<string>, sep: char): string
  {
    if |parts| == 0 then []
    else if |parts| == 1 then parts[0]
    else parts[0] + [sep] + Join(parts[1..], sep)
  }

  /** A join starts with the first part's first character and ends with the last part's last one. */
  lemma {:induction false} JoinEnds(parts: seq<string>, sep: char)
    requires |parts| >= 1 && parts[0] != [] && parts[|parts| - 1] != []
    ensures var j := Join(parts, sep);
            j != [] && j[0] == parts[0][0] && j[|j| - 1] == parts[|parts| - 1][|parts[|parts| - 1]| - 1]
  {
    if |parts| > 1 {
      var rest := parts[1..];
      assert rest[|rest| - 1] == parts[|parts| - 1];
      if rest[0] == [] {
        if |rest| > 1 {
          JoinLast(rest, sep);
        }
      } else {
        JoinEnds(rest, sep);
      }
    }
  }

  lemma {:induction false} JoinLast(parts: seq<string>, sep: char)
    requires |parts| >= 1 && parts[|parts| - 1] != []
    ensures var j := Join(parts, sep);
            j != [] && j[|j| - 1] == parts[|parts| - 1][|parts[|parts| - 1]| - 1]
  {
    if |parts| > 1 {
      assert parts[1..][|parts| - 2] == parts[|parts| - 1];
      JoinLast(parts[1..], sep);
    }
  }

  /** Joining the pieces of a split gives back the original string. */
  lemma {:induction false} JoinSplit(s: string, sep: char)
    ensures Join(Split(s, sep), sep) == s
  {
    if |s| > 0 {
      var rest := Split(s[1..], sep);
      JoinSplit(s[1..], sep);
      if s[0] == sep {
        assert Split(s, sep) == [[]] + rest;
        assert Join([[]] + rest, sep) == [] + [sep] + Join(rest, sep);
        assert s == [sep] + s[1..];
      } else {
        var r := Split(s, sep);
        assert r == [[s[0]] + rest[0]] + rest[1..];
        if |rest| == 1 {
          assert Join(r, sep) == [s[0]] + rest[0];
        } else {
          assert Join(rest, sep) == rest[0] + [sep] + Join(rest[1..], sep);
          assert r[1..] == rest[1..];
          assert Join(r, sep) == ([s[0]] + rest[0]) + [sep] + Join(rest[1..], sep);
        }
        assert s == [s[0]] + s[1..];
      }
    }
  }

  lemma {:induction false} SplitNoSep(a: string, sep: char)
    requires sep !in a
    ensures Split(a, sep) == [a]
  {
    if |a| > 0 {
      assert sep !in a[1..];
      SplitNoSep(a[1..], sep);
      assert [a[0]] + a[1..] == a;
    }
  }

  lemma {:induction false} SplitPrefix(a: string, sep: char, b: string)
    requires sep !in a
    ensures Split(a + [sep] + b, sep) == [a] + Split(b, sep)
    decreases |a|
  {
    if |a| == 0 {
      assert a + [sep] + b == [sep] + b;
      assert ([sep] + b)[1..] == b;
    } else {
      assert (a + [sep] + b)[1..] == a[1..] + [sep] + b;
      assert sep !in a[1..];
      SplitPrefix(a[1..], sep, b);
      assert [a[0]] + a[1..] == a;
    }
  }

  /** The pieces `pa` and `pb` with the last of `pa` run into the first of `pb`. */
  function Seam(pa: seq<string>, pb: seq<string>): seq<string>
    requires |pa| >= 1 && |pb| >= 1
  {
    pa[..|pa| - 1] + [pa[|pa| - 1] + pb[0]] + pb[1..]
  }

  lemma SeamAfterEmpty(qa: seq<string>, pb: seq<string>)
    requires |qa| >= 1 && |pb| >= 1
    ensures [[]] + Seam(qa, pb) == Seam([[]] + qa, pb)
  {
    assert ([[]] + qa)[..|qa|] == [[]] + qa[..|qa| - 1];
  }

  lemma SeamAfterChar(c: char, qa: seq<string>, pb: seq<string>)
    requires |qa| >= 1 && |pb| >= 1
    ensures var rest := Seam(qa, pb);
            [[c] + rest[0]] + rest[1..] == Seam([[c] + qa[0]] + qa[1..], pb)
  {
    var rest := Seam(qa, pb);
    var pa := [[c] + qa[0]] + qa[1..];
    var n := |qa|;
    if n == 1 {
      assert rest[0] == qa[0] + pb[0] && rest[1..] == pb[1..];
      assert pa[..|pa| - 1] == [] && pa[|pa| - 1] == [c] + qa[0];
      assert [c] + (qa[0] + pb[0]) == ([c] + qa[0]) + pb[0];
    } else {
      assert rest[0] == qa[0];
      assert rest[1..] == qa[1..n - 1] + [qa[n - 1] + pb[0]] + pb[1..];
      assert pa[..|pa| - 1] == [[c] + qa[0]] + qa[1..n - 1];
    }
  }

  /**
   * Splitting a concatenation: the last piece of `a` and the first piece of
   * `b` run together, the other pieces are those of `a` and of `b` in order.
   */
  lemma {:induction false} SplitConcat(a: string, b: string, sep: char)
    ensures Split(a + b, sep) == Seam(Split(a, sep), Split(b, sep))
    decreases |a|
  {
    var pb := Split(b, sep);
    if |a| == 0 {
      assert a + b == b;
      assert Split(a, sep) == [[]];
      assert [] + pb[0] == pb[0];
      assert pb == [pb[0]] + pb[1..];
    } else {
      var qa := Split(a[1..], sep);
      assert (a + b)[1..] == a[1..] + b;
      SplitConcat(a[1..], b, sep);
      if a[0] == sep {
        SplitSepHead(a + b, sep);
        SplitSepHead(a, sep);
        SeamAfterEmpty(qa, pb);
      } else {
        SplitCharHead(a + b, sep);
        SplitCharHead(a, sep);
        SeamAfterChar(a[0], qa, pb);
      }
    }
  }

  lemma SplitSepHead(s: string, sep: char)
    requires |s| > 0 && s[0] == sep
    ensures Split(s, sep) == [[]] + Split(s[1..], sep)
  {
  }

  lemma SplitCharHead(s: string, sep: char)
    requires |s| > 0 && s[0] != sep
    ensures var rest := Split(s[1..], sep);
            Split(s, sep) == [[s[0]] + rest[0]] + rest[1..]
  {
  }

  /** Splitting `a + sep + b` gives the pieces of `a` followed by the pieces of `b`. */
  lemma SplitAppend(a: string, sep: char, b: string)
    ensures Split(a + [sep] + b, sep) == Split(a, sep) + Split(b, sep)
  {
    var pa, pb := Split(a, sep), Split(b, sep);
    var q := Split([sep] + b, sep);
    assert ([sep] + b)[1..] == b;
    SplitSepHead([sep] + b, sep);
    assert q[0] == [] && q[1..] == pb;
    assert a + [sep] + b == a + ([sep] + b);
    SplitConcat(a, [sep] + b, sep);
    assert pa[|pa| - 1] + [] == pa[|pa| - 1];
    assert pa[..|pa| - 1] + [pa[|pa| - 1]] == pa;
  }

  /** The pieces of an all-whitespace string are all whitespace. */
  lemma {:induction false} SplitAllSpace(w: string, sep: char)
    requires forall i :: 0 <= i < |w| ==> IsSpace(w[i])
    ensures forall k, i :: 0 <= k < |Split(w, sep)| && 0 <= i < |Split(w, sep)[k]| ==> IsSpace(Split(w, sep)[k][i])
    decreases |w|
  {
    if |w| > 0 {
      SplitAllSpace(w[1..], sep);
    }
  }

  /**
   * Splitting a join gives back the parts, provided there is at least one part
   * and no part contains the separator.
   */
  lemma {:induction false} SplitJoin(parts: seq<string>, sep: char)
    requires |parts| >= 1
    requires forall k :: 0 <= k < |parts| ==> sep !in parts[k]
    ensures Split(Join(parts, sep), sep) == parts
  {
    if |parts| == 1 {
      SplitNoSep(parts[0], sep);
    } else {
      SplitJoin(parts[1..], sep);
      SplitPrefix(parts[0], sep, Join(parts[1..], sep));
      assert [parts[0]] + parts[1..] == parts;
    }
  }

  /** A join is as long as its parts plus one separator between each two. */
  lemma {:induction false} JoinLength(parts: seq<string>, sep: char, width: nat)
    requires forall k :: 0 <= k < |parts| ==> |parts[k]| == width
    requires |parts| >= 1
    ensures |Join(parts, sep)| == |parts| * (width + 1) - 1
  {
    if |parts| > 1 {
      JoinLength(parts[1..], sep, width);
    }
  }

  /** A character that is neither the separator nor in any part is not in the join. */
  lemma {:induction false} JoinAvoids(parts: seq<string>, sep: char, c: char)
    requires c != sep && forall k :: 0 <= k < |parts| ==> c !in parts[k]
    ensures c !in Join(parts, sep)
  {
    if |parts| > 1 {
      JoinAvoids(parts[1..], sep, c);
    }
  }

  // ---------------------------------------------------------------------------
  // decimal numerals

  function DigitChar(d: nat): (c: char)
    requires d < 10
    ensures IsDigit(c) && c as int - '0' as int == d
  {
    ('0' as int + d) as char
  }

  function DigitValue(c: char): (d: nat)
    requires IsDigit(c)
    ensures d < 10
  {
    c as int - '0' as int
  }

  /** Python's `str(n)` for a non-negative integer. */
  function NatToString(n: nat): (r: string)
    ensures IsDigits(r)
    ensures r[0] == '0' ==> n == 0
    decreases n
  {
    if n < 10 then [DigitChar(n)] else NatToString(n / 10) + [DigitChar(n % 10)]
  }

  /** Python's `int(s)` for a string of ASCII digits (leading zeros allowed). */
  function DigitsValue(s: string): nat
    requires forall i :: 0 <= i < |s| ==> IsDigit(s[i])
  {
    if s == [] then 0 else 10 * DigitsValue(s[..|s| - 1]) + DigitValue(s[|s| - 1])
  }

  /** `int(str(n)) == n`. */
  lemma {:induction false} DecimalRoundTrip(n: nat)
    ensures DigitsValue(NatToString(n)) == n
    decreases n
  {
    if n >= 10 {
      DecimalRoundTrip(n / 10);
      var s := NatToString(n);
      assert s[..|s| - 1] == NatToString(n / 10);
    }
  }

  /** Distinct numbers have distinct decimal names. */
  lemma DecimalInjective(m: nat, n: nat)
    requires NatToString(m) == NatToString(n)
    ensures m == n
  {
    DecimalRoundTrip(m);
    DecimalRoundTrip(n);
  }

  /** `c * k`: the character `c`, `k` times. */
  function Repeat(c: char, k: nat): (r: string)
    ensures |r| == k && forall i :: 0 <= i < k ==> r[i] == c
  {
    if k == 0 then [] else Repeat(c, k - 1) + [c]
  }

  /**
   * Python's `s.zfill(width)`: pad on the left with '0' up to `width`
   * characters, after a leading sign if there is one; a string that is already
   * wide enough is returned unchanged.
   */
  function ZFill(s: string, width: nat): (r: string)
    ensures |r| == if |s| >= width then |s| else width
    ensures |s| >= width ==> r == s
    ensures |s| < width && (s == [] || (s[0] != '+' && s[0] != '-')) ==> r == Repeat('0', width - |s|) + s
    ensures |s| < width && s != [] && (s[0] == '+' || s[0] == '-') ==> r == [s[0]] + Repeat('0', width - |s|) + s[1..]
  {
    if |s| >= width then s
    else if s != [] && (s[0] == '+' || s[0] == '-') then [s[0]] + Repeat('0', width - |s|) + s[1..]
    else Repeat('0', width - |s|) + s
  }

  lemma {:induction false} LeadingZerosValue(k: nat, s: string)
    requires forall i :: 0 <= i < |s| ==> IsDigit(s[i])
    ensures forall i :: 0 <= i < |Repeat('0', k) + s| ==> IsDigit((Repeat('0', k) + s)[i])
    ensures DigitsValue(Repeat('0', k) + s) == DigitsValue(s)
    decreases |s|, k
  {
    var z := Repeat('0', k) + s;
    if s == [] {
      assert z == Repeat('0', k);
      if k > 0 {
        assert z[..|z| - 1] == Repeat('0', k - 1) + s;
        LeadingZerosValue(k - 1, s);
      }
    } else {
      assert z[..|z| - 1] == Repeat('0', k) + s[..|s| - 1];
      LeadingZerosValue(k, s[..|s| - 1]);
    }
  }

  /**
   * `int(str(n).zfill(w)) == n`: a zero-padded scan or echo number still reads
   * back as that number.
   */
  lemma ZeroPadRoundTrip(n: nat, width: nat)
    ensures forall i :: 0 <= i < |ZFill(NatToString(n), width)| ==> IsDigit(ZFill(NatToString(n), width)[i])
    ensures DigitsValue(ZFill(NatToString(n), width)) == n
  {
    var s := NatToString(n);
    DecimalRoundTrip(n);
    if |s| < width {
      LeadingZerosValue(width - |s|, s);
    }
  }

  /** Python's `'{:0Wd}'.format(n)` for a non-negative `n`. */
  function FormatPadded(n: nat, width: nat): (r: string)
    ensures |r| == if |NatToString(n)| >= width then |NatToString(n)| else width
    ensures IsDigits(r) && DigitsValue(r) == n
  {
    ZeroPadRoundTrip(n, width);
    ZFill(NatToString(n), width)
  }

  // ---------------------------------------------------------------------------
  // paths

  /** The parts before and after the last occurrence of `c`, if there is one. */
  function SplitLast(s: string, c: char): (r: Option<(string, string)>)
    ensures r.Some? ==> s == r.value.0 + [c] + r.value.1 && c !in r.value.1
    ensures r.None? ==> c !in s
  {
    if s == [] then None
    else if s[|s| - 1] == c then Some((s[..|s| - 1], []))
    else match SplitLast(s[..|s| - 1], c)
      case None => None
      case Some(p) => Some((p.0, p.1 + [s[|s| - 1]]))
  }

  /** The last occurrence is found, whatever comes before it. */
  lemma {:induction false} SplitLastOf(a: string, c: char, b: string)
    requires c !in b
    ensures SplitLast(a + [c] + b, c) == Some((a, b))
    decreases |b|
  {
    var s := a + [c] + b;
    if b == [] {
      assert s[..|s| - 1] == a;
    } else {
      var b' := b[..|b| - 1];
      assert s[..|s| - 1] == a + [c] + b';
      assert c !in b';
      SplitLastOf(a, c, b');
      assert b' + [b[|b| - 1]] == b;
    }
  }

  /** POSIX `os.path.join(a, b)` for two components. */
  function PathJoin(a: string, b: string): (r: string)
    // An absolute `b` replaces `a`; otherwise `b` follows `a`, with one `/`
    // between them unless `a` is empty or already ends in `/`.
    ensures b != [] && b[0] == '/' ==> r == b
    ensures (b == [] || b[0] != '/') && (a == [] || a[|a| - 1] == '/') ==> r == a + b
    ensures (b == [] || b[0] != '/') && a != [] && a[|a| - 1] != '/' ==> r == a + "/" + b
  {
    if b != [] && b[0] == '/' then b
    else if a == [] || a[|a| - 1] == '/' then a + b
    else a + ['/'] + b
  }

  /** Joining one directory with two relative names gives two paths that differ when the names do. */
  lemma PathJoinInjective(a: string, b1: string, b2: string)
    requires b1 != [] && b1[0] != '/' && b2 != [] && b2[0] != '/'
    requires PathJoin(a, b1) == PathJoin(a, b2)
    ensures b1 == b2
  {
    var pre := if a == [] || a[|a| - 1] == '/' then a else a + ['/'];
    assert PathJoin(a, b1) == pre + b1 && PathJoin(a, b2) == pre + b2;
    assert b1 == (pre + b1)[|pre|..];
  }

  /**
   * The last component of a joined path is the name that was joined, so
   * `os.path.basename(os.path.join(a, b)) == b` for a plain name `b`.
   */
  lemma BasenameOfJoin(a: string, b: string)
    requires a != [] && '/' !in b
    ensures SplitLast(PathJoin(a, b), '/') == Some((if a[|a| - 1] == '/' then a[..|a| - 1] else a, b))
  {
    if a[|a| - 1] == '/' {
      assert a + b == a[..|a| - 1] + ['/'] + b;
      SplitLastOf(a[..|a| - 1], '/', b);
    } else {
      SplitLastOf(a, '/', b);
    }
  }
}
