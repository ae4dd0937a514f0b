/**
 * Python's `fnmatch.fnmatch` on POSIX (no case folding): `*` matches any run
 * of characters, `?` any one character, `[...]` one character of a set and
 * `[!...]` one character outside it; a `[` without a closing `]` stands for
 * itself, as does every other character. Inside brackets a `]` right after
 * the opening (or after `!`) belongs to the set, `a-z` is a range (empty
 * when reversed) and a `-` at either end is itself.
 */
module Patterns {

  /** One unit of a translated pattern. */
  datatype Token =
    | Star                                     // `*`
    | AnyChar                                  // `?`
    | Lit(c: char)                             // a character that stands for itself
    | Class(negated: bool, items: seq<Item>)   // `[...]` or `[!...]`

  datatype Item = Single(c: char) | Range(lo: char, hi: char)

  predicate InItems(c: char, items: seq<Item>)
  {
    exists k :: 0 <= k < |items| && match items[k]
      case Single(d) => c == d
      case Range(lo, hi) => lo <= c <= hi
  }

  /** Reads the inside of a bracket expression left to right. */
  function Items(body: string): seq<Item>
  {
    if body == [] then []
    else if |body| >= 3 && body[1] == '-' then [Range(body[0], body[2])] + Items(body[3..])
    else [Single(body[0])] + Items(body[1..])
  }

  /** The index of the first `]` at or after `from`. */
  function FindClose(pat: string, from: nat): (r: Close)
    ensures r.Found? ==> from <= r.at < |pat| && pat[r.at] == ']'
    decreases |pat| - from
  {
    if from >= |pat| then NotFound
    else if pat[from] == ']' then Found(from)
    else FindClose(pat, from + 1)
  }

  datatype Close = NotFound | Found(at: nat)

  /**
   * Where a bracket expression opened by the `[` just before `pat` ends: a
   * leading `!`, then a leading `]`, are part of it.
   */
  function BracketEnd(pat: string): (r: Close)
    ensures r.Found? ==> r.at < |pat| && pat[r.at] == ']'
  {
    var j := if pat != [] && pat[0] == '!' then 1 else 0;
    var j' := if j < |pat| && pat[j] == ']' then j + 1 else j;
    FindClose(pat, j')
  }

  /** The class a bracket expression's inside stands for: negated when it opens with `!`. */
  function ClassToken(body: string): Token
  {
    if body != [] && body[0] == '!' then Class(true, Items(body[1..])) else Class(false, Items(body))
  }

  /** The translation of a pattern into tokens (what `fnmatch.translate` builds as a regular expression). */
  function Tokens(pat: string): seq<Token>
    decreases |pat|
  {
    if pat == [] then []
    else if pat[0] == '*' then [Star] + Tokens(pat[1..])
    else if pat[0] == '?' then [AnyChar] + Tokens(pat[1..])
    else if pat[0] == '[' then
      match BracketEnd(pat[1..])
      case NotFound => [Lit('[')] + Tokens(pat[1..])
      case Found(j) => [ClassToken(pat[1..][..j])] + Tokens(pat[1..][j + 1..])
    else [Lit(pat[0])] + Tokens(pat[1..])
  }

  /** Whether the whole of `name` is matched by the tokens. */
  function Matches(name: string, ts: seq<Token>): bool
    decreases |ts|, |name|
  {
    if ts == [] then name == []
    else match ts[0]
      case Star => Matches(name, ts[1..]) || (name != [] && Matches(name[1..], ts))
      case AnyChar => name != [] && Matches(name[1..], ts[1..])
      case Lit(c) => name != [] && name[0] == c && Matches(name[1..], ts[1..])
      case Class(neg, items) => name != [] && InItems(name[0], items) != neg && Matches(name[1..], ts[1..])
  }

  /** `fnmatch.fnmatch(name, pat)`. */
  function Fnmatch(name: string, pat: string): bool
  {
    Matches(name, Tokens(pat))
  }

  // ---------------------------------------------------------------------------
  // Properties

  /** A character with no meaning in a pattern. */
  predicate Plain(c: char)
  {
    c != '*' && c != '?' && c != '['
  }

  predicate AllPlain(s: string)
  {
    forall k :: 0 <= k < |s| ==> Plain(s[k])
  }

  function Lits(s: string): (r: seq<Token>)
    ensures |r| == |s| && forall k :: 0 <= k < |s| ==> r[k] == Lit(s[k])
  {
    if s == [] then [] else [Lit(s[0])] + Lits(s[1..])
  }

  lemma {:induction false} TokensPlain(s: string, rest: string)
    requires AllPlain(s)
    ensures Tokens(s + rest) == Lits(s) + Tokens(rest)
    decreases |s|
  {
    if s != [] {
      assert (s + rest)[0] == s[0] && (s + rest)[1..] == s[1..] + rest;
      TokensPlain(s[1..], rest);
    } else {
      assert s + rest == rest;
    }
  }

  /** Literal tokens match exactly their own text, followed by whatever the rest matches. */
  lemma {:induction false} MatchesLits(name: string, s: string, rest: seq<Token>)
    ensures Matches(name, Lits(s) + rest) <==>
            |s| <= |name| && name[..|s|] == s && Matches(name[|s|..], rest)
    decreases |s|
  {
    if s == [] {
      assert Lits(s) + rest == rest;
    } else {
      var ts := Lits(s) + rest;
      assert ts[0] == Lit(s[0]) && ts[1..] == Lits(s[1..]) + rest;
      if name != [] {
        MatchesLits(name[1..], s[1..], rest);
        if |s| <= |name| && name[..|s|] == s {
          assert name[1..][..|s| - 1] == s[1..];
        }
        if |s| - 1 <= |name| - 1 && name[1..][..|s| - 1] == s[1..] && name[0] == s[0] {
          assert name[..|s|] == [name[0]] + name[1..][..|s| - 1];
        }
        if |s| <= |name| {
          assert name[1..][|s| - 1..] == name[|s|..];
        }
      }
    }
  }

  /** A pattern without `*`, `?` or `[` matches only itself. */
  lemma PlainPattern(name: string, pat: string)
    requires AllPlain(pat)
    ensures Fnmatch(name, pat) <==> name == pat
  {
    TokensPlain(pat, []);
    assert pat + [] == pat;
    assert Lits(pat) + [] == Lits(pat);
    MatchesLits(name, pat, []);
    if |pat| <= |name| && name[..|pat|] == pat && name[|pat|..] == [] {
      assert name == name[..|pat|] + name[|pat|..];
    }
  }

  /** A leading star lets the rest match any suffix. */
  lemma {:induction false} MatchesStar(name: string, rest: seq<Token>)
    ensures Matches(name, [Star] + rest) <==> exists k :: 0 <= k <= |name| && Matches(name[k..], rest)
    decreases |name|
  {
    var ts := [Star] + rest;
    assert ts[0] == Star && ts[1..] == rest;
    assert name[0..] == name;
    if name != [] {
      MatchesStar(name[1..], rest);
      if exists k :: 1 <= k <= |name| && Matches(name[k..], rest) {
        var k :| 1 <= k <= |name| && Matches(name[k..], rest);
        assert name[1..][k - 1..] == name[k..];
      }
      if exists k :: 0 <= k <= |name[1..]| && Matches(name[1..][k..], rest) {
        var k :| 0 <= k <= |name[1..]| && Matches(name[1..][k..], rest);
        assert name[1..][k..] == name[k + 1..];
      }
    }
  }

  lemma {:induction false} StarMatchesAll(name: string)
    ensures Matches(name, [Star])
    decreases |name|
  {
    assert [Star][1..] == [];
    if name != [] {
      StarMatchesAll(name[1..]);
    }
  }

  /** `s` occurs in `name` as a contiguous run. */
  predicate Contains(name: string, s: string)
  {
    exists k :: 0 <= k <= |name| && OccursAt(name, s, k)
  }

  predicate OccursAt(name: string, s: string, k: int)
  {
    0 <= k && k + |s| <= |name| && name[k..k + |s|] == s
  }

  /**
   * `'*' + s + '*'` matches exactly the names containing `s`, when `s` has no
   * pattern characters.
   */
  lemma FlankedMatchesContaining(name: string, s: string)
    requires AllPlain(s)
    ensures Fnmatch(name, "*" + s + "*") <==> Contains(name, s)
  {
    var pat := "*" + s + "*";
    assert pat[0] == '*' && pat[1..] == s + "*";
    TokensPlain(s, "*");
    assert Tokens("*") == [Star] + Tokens([]);
    var ts := Tokens(pat);
    assert ts == [Star] + (Lits(s) + [Star]);
    MatchesStar(name, Lits(s) + [Star]);
    if Fnmatch(name, pat) {
      var k :| 0 <= k <= |name| && Matches(name[k..], Lits(s) + [Star]);
      MatchesLits(name[k..], s, [Star]);
      assert name[k..][..|s|] == name[k..k + |s|];
      assert OccursAt(name, s, k);
    }
    if Contains(name, s) {
      var k :| 0 <= k <= |name| && OccursAt(name, s, k);
      assert name[k..][..|s|] == name[k..k + |s|];
      StarMatchesAll(name[k..][|s|..]);
      MatchesLits(name[k..], s, [Star]);
    }
  }

  /** A closed bracket expression at the front of a pattern is one class token. */
  lemma TokensBracket(pat: string, j: nat)
    requires pat != [] && pat[0] == '[' && BracketEnd(pat[1..]) == Found(j)
    ensures Tokens(pat) == [ClassToken(pat[1..][..j])] + Tokens(pat[1..][j + 1..])
  {
  }

  /** Where a bracket expression whose inside has no `]` closes, and what lies inside and after it. */
  lemma ClosedBracket(inside: string)
    requires ']' !in inside && inside != [] && inside != "!"
    ensures var pat := "[" + inside + "]";
            && pat[0] == '[' && BracketEnd(pat[1..]) == Found(|inside|)
            && pat[1..][..|inside|] == inside && pat[1..][|inside| + 1..] == []
  {
    var inner := inside + "]";
    var pat := "[" + inner;
    assert "[" + inside + "]" == pat;
    assert pat[1..] == inner;
    var from := if inside[0] == '!' then 1 else 0;
    assert inner[from] != ']';
    FindCloseAfter(inner, from, |inside|);
    assert inner[..|inside|] == inside;
  }

  /** A bracket expression with no `]` inside and no leading `!` is one positive class. */
  lemma PlainBracket(body: string)
    requires ']' !in body && body != [] && body[0] != '!'
    ensures Tokens("[" + body + "]") == [Class(false, Items(body))]
  {
    ClosedBracket(body);
    TokensBracket("[" + body + "]", |body|);
  }

  /** The same inside after `[!` is one negated class. */
  lemma NegatedBracket(body: string)
    requires ']' !in body && body != [] && body[0] != '!'
    ensures Tokens("[!" + body + "]") == [Class(true, Items(body))]
  {
    assert ("!" + body)[1..] == body;
    ClosedBracket("!" + body);
    assert "[" + ("!" + body) + "]" == "[!" + body + "]";
    TokensBracket("[!" + body + "]", |body| + 1);
  }

  /** `[!...]` matches one character exactly when `[...]` with the same inside does not. */
  lemma NegatedClass(c: char, body: string)
    requires ']' !in body && body != [] && body[0] != '!'
    ensures Fnmatch([c], "[!" + body + "]") <==> !Fnmatch([c], "[" + body + "]")
  {
    PlainBracket(body);
    NegatedBracket(body);
    assert [c][1..] == [] && Matches([], []);
  }

  /** `[lo-hi]` matches one character exactly when it lies between the two ends. */
  lemma RangeClass(c: char, lo: char, hi: char)
    requires lo != '!' && lo != ']' && hi != ']'
    ensures Fnmatch([c], "[" + [lo, '-', hi] + "]") <==> lo <= c <= hi
  {
    var body := [lo, '-', hi];
    var pat := "[" + body + "]";
    assert pat[1..] == body + "]";
    FindCloseAfter(body + "]", 0, 3);
    assert (body + "]")[..3] == body && (body + "]")[4..] == [];
    assert Items(body) == [Range(lo, hi)] + Items(body[3..]);
    assert body[3..] == [] && Items([]) == [];
    assert Items(body) == [Range(lo, hi)];
    assert BracketEnd(pat[1..]) == Found(3);
    assert pat[1..][..3] == body && pat[1..][4..] == [];
    assert pat[0] == '[' && body[0] == lo;
    assert Tokens(pat) == [Class(false, Items(pat[1..][..3]))] + Tokens(pat[1..][4..]);
    assert Tokens(pat) == [Class(false, [Range(lo, hi)])] by {
      assert Tokens(pat[1..][4..]) == [];
    }
    assert [c][1..] == [] && Matches([], []);
    assert InItems(c, [Range(lo, hi)]) <==> lo <= c <= hi by {
      assert [Range(lo, hi)][0] == Range(lo, hi);
    }
  }

  /** `?` matches any one character and nothing longer or shorter. */
  lemma AnyOne(name: string)
    ensures Fnmatch(name, "?") <==> |name| == 1
  {
    assert Tokens("?") == [AnyChar] + Tokens([]);
    if name != [] {
      assert Matches(name[1..], []) <==> |name| == 1;
    }
  }

  lemma {:induction false} FindCloseAfter(pat: string, from: nat, at: nat)
    requires from <= at < |pat| && pat[at] == ']' && forall k :: from <= k < at ==> pat[k] != ']'
    ensures FindClose(pat, from) == Found(at)
    decreases at - from
  {
    if from < at {
      FindCloseAfter(pat, from + 1, at);
    }
  }
}
