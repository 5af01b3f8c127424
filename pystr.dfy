/**
  The Python `str` operations the backend relies on, over strings of Unicode
  code points (`seq<char>`): `replace`, `strip`, `lstrip(chars)`, `split(sep)`
  and an ASCII approximation of `title`.
*/
module PyStr {

  // ---------------------------------------------------------------------------
  // Occurrences of a pattern
  // ---------------------------------------------------------------------------

  /** `p` occurs in `s` starting at index `i`. */
  predicate OccursAt(s: string, p: string, i: int) {
    0 <= i && i + |p| <= |s| && s[i..i + |p|] == p
  }

  /** Python's `p in s`. */
  predicate Contains(s: string, p: string) {
    exists i :: 0 <= i <= |s| && OccursAt(s, p, i)
  }

  /** An occurrence in a slice is an occurrence in the whole string. */
  lemma ContainsInSlice(s: string, a: int, b: int, p: string)
    requires 0 <= a <= b <= |s|
    requires Contains(s[a..b], p)
    ensures Contains(s, p)
  {
    var i :| 0 <= i <= b - a && OccursAt(s[a..b], p, i);
    forall k | 0 <= k < |p|
      ensures s[a + i + k] == p[k]
    {
      assert p[k] == s[a..b][i..i + |p|][k];
    }
    assert s[a + i..a + i + |p|] == p;
    assert OccursAt(s, p, a + i);
  }

  /** An occurrence of `p + q` is an occurrence of `p`. */
  lemma ContainsPrefixOfPattern(s: string, p: string, q: string)
    requires Contains(s, p + q)
    ensures Contains(s, p)
  {
    var i :| 0 <= i <= |s| && OccursAt(s, p + q, i);
    forall k | 0 <= k < |p|
      ensures s[i + k] == p[k]
    {
      assert (p + q)[k] == s[i..i + |p + q|][k];
    }
    assert s[i..i + |p|] == p;
    assert OccursAt(s, p, i);
  }

  // ---------------------------------------------------------------------------
  // str.replace
  // ---------------------------------------------------------------------------

  /**
    Python's `s.replace(pat, rep)` for a non-empty `pat`: the string is scanned
    left to right, every occurrence found is replaced by `rep`, and scanning
    resumes after it, so occurrences never overlap.
  */
  function Replace(s: string, pat: string, rep: string): (r: string)
    requires pat != []
    decreases |s|
  {
    if |s| < |pat| then s
    else if s[..|pat|] == pat then rep + Replace(s[|pat|..], pat, rep)
    else [s[0]] + Replace(s[1..], pat, rep)
  }

  /** Replacing a pattern that does not occur leaves the string unchanged. */
  lemma {:induction false} ReplaceAbsent(s: string, pat: string, rep: string)
    requires pat != []
    requires !Contains(s, pat)
    ensures Replace(s, pat, rep) == s
    decreases |s|
  {
    if |s| >= |pat| {
      assert !OccursAt(s, pat, 0);
      if Contains(s[1..], pat) {
        assert s[1..|s|] == s[1..];
        ContainsInSlice(s, 1, |s|, pat);
      }
      ReplaceAbsent(s[1..], pat, rep);
    }
  }

  /**
    Replacing one character by another keeps the length and changes exactly
    the positions that held the replaced character.
  */
  lemma {:induction false} ReplaceChar(s: string, from: char, to: char)
    ensures |Replace(s, [from], [to])| == |s|
    ensures forall i :: 0 <= i < |s| ==>
              Replace(s, [from], [to])[i] == if s[i] == from then to else s[i]
    decreases |s|
  {
    if s != [] {
      ReplaceChar(s[1..], from, to);
    }
  }

  /** The code-fence marker. */
  const Fence := "```"

  /**
    Removing every fence leaves no fence behind: deleting an occurrence never
    joins backticks on its two sides into a new one, because a backtick just
    before an occurrence would itself have started an earlier occurrence.
  */
  lemma {:induction false} RemoveFenceLeavesNone(s: string)
    ensures !Contains(Replace(s, Fence, []), Fence)
    decreases |s|
  {
    var r := Replace(s, Fence, []);
    if |s| < 3 {
      assert r == s;
    } else if s[..3] == Fence {
      RemoveFenceLeavesNone(s[3..]);
      assert r == Replace(s[3..], Fence, []);
    } else {
      var rest := Replace(s[1..], Fence, []);
      RemoveFenceLeavesNone(s[1..]);
      assert r == [s[0]] + rest;
      if Contains(r, Fence) {
        var i :| 0 <= i <= |r| && OccursAt(r, Fence, i);
        if i == 0 {
          assert false;
        } else {
          forall k | 0 <= k < 3
            ensures rest[i - 1 + k] == Fence[k]
          {
            assert r[i + k] == rest[i - 1 + k];
            assert r[i..i + 3][k] == Fence[k];
          }
          assert rest[i - 1..i - 1 + 3] == Fence;
          assert OccursAt(rest, Fence, i - 1);
        }
      }
    }
  }

  // ---------------------------------------------------------------------------
  // str.lstrip / str.rstrip / str.strip
  // ---------------------------------------------------------------------------

  /**
    Python's `str.isspace()` for one code point: the 29 code points CPython's
    `str.strip()` removes when called without arguments.
  */
  predicate IsSpace(c: char) {
    || ('\t' <= c <= '\r')
    || ('\U{1C}' <= c <= '\U{1F}')
    || c == ' '
    || c == '\U{85}'
    || c == '\U{A0}'
    || c == '\U{1680}'
    || ('\U{2000}' <= c <= '\U{200A}')
    || c == '\U{2028}'
    || c == '\U{2029}'
    || c == '\U{202F}'
    || c == '\U{205F}'
    || c == '\U{3000}'
  }

  /** `s.lstrip(chars)`: drops the longest prefix whose characters all satisfy `drop`. */
  function LStripBy(s: string, drop: char -> bool): string
    decreases |s|
  {
    if s != [] && drop(s[0]) then LStripBy(s[1..], drop) else s
  }

  /**
    The left strip is a suffix of `s`, everything it dropped satisfies `drop`,
    and the first character it kept does not.
  */
  lemma {:induction false} LStripBySpec(s: string, drop: char -> bool)
    ensures var r := LStripBy(s, drop);
            |r| <= |s| && r == s[|s| - |r|..]
            && (forall k :: 0 <= k < |s| - |r| ==> drop(s[k]))
            && (r == [] || !drop(r[0]))
    decreases |s|
  {
    if s != [] && drop(s[0]) {
      LStripBySpec(s[1..], drop);
    }
  }

  /** `s.rstrip(chars)`: drops the longest suffix whose characters all satisfy `drop`. */
  function RStripBy(s: string, drop: char -> bool): string
    decreases |s|
  {
    if s != [] && drop(s[|s| - 1]) then RStripBy(s[..|s| - 1], drop) else s
  }

  /**
    The right strip is a prefix of `s`, everything it dropped satisfies
    `drop`, and the last character it kept does not.
  */
  lemma {:induction false} RStripBySpec(s: string, drop: char -> bool)
    ensures var r := RStripBy(s, drop);
            |r| <= |s| && r == s[..|r|]
            && (forall k :: |r| <= k < |s| ==> drop(s[k]))
            && (r == [] || !drop(r[|r| - 1]))
    decreases |s|
  {
    if s != [] && drop(s[|s| - 1]) {
      RStripBySpec(s[..|s| - 1], drop);
    }
  }

  /** Python's `s.strip()` with no argument. */
  function Strip(s: string): string {
    RStripBy(LStripBy(s, IsSpace), IsSpace)
  }

  /**
    `Strip(s)` is the slice of `s` left after removing whitespace at both ends:
    it starts at `a`, everything before `a` and after it is whitespace, and it
    neither starts nor ends with whitespace. It is empty exactly when `s` is
    all whitespace.
  */
  lemma StripSlice(s: string) returns (a: nat)
    ensures a + |Strip(s)| <= |s| && Strip(s) == s[a..a + |Strip(s)|]
    ensures forall k :: 0 <= k < a ==> IsSpace(s[k])
    ensures forall k :: a + |Strip(s)| <= k < |s| ==> IsSpace(s[k])
    ensures Strip(s) == [] || (!IsSpace(Strip(s)[0]) && !IsSpace(Strip(s)[|Strip(s)| - 1]))
    ensures Strip(s) == [] <==> forall k :: 0 <= k < |s| ==> IsSpace(s[k])
  {
    var l := LStripBy(s, IsSpace);
    var r := Strip(s);
    LStripBySpec(s, IsSpace);
    RStripBySpec(l, IsSpace);
    a := |s| - |l|;
    assert r == l[..|r|];
    assert r == s[a..a + |r|];
    forall k | a + |r| <= k < |s|
      ensures IsSpace(s[k])
    {
      assert s[k] == l[k - a];
    }
  }

  /** Whatever occurs in the stripped string occurs in the original. */
  lemma StripContains(s: string, p: string)
    requires Contains(Strip(s), p)
    ensures Contains(s, p)
  {
    var a := StripSlice(s);
    ContainsInSlice(s, a, a + |Strip(s)|, p);
  }

  /** A string that neither starts nor ends with whitespace is its own strip. */
  lemma StripTrimmed(s: string)
    requires s == [] || (!IsSpace(s[0]) && !IsSpace(s[|s| - 1]))
    ensures Strip(s) == s
  {
  }

  /** Stripping twice is stripping once. */
  lemma StripIdempotent(s: string)
    ensures Strip(Strip(s)) == Strip(s)
  {
    var _ := StripSlice(s);
    StripTrimmed(Strip(s));
  }

  // ---------------------------------------------------------------------------
  // str.split(sep)
  // ---------------------------------------------------------------------------

  /** Joins pieces with one separator between each pair, like `sep.join(ps)`. */
  function Join(ps: seq<string>, sep: char): string
    requires |ps| >= 1
  {
    if |ps| == 1 then ps[0] else ps[0] + [sep] + Join(ps[1..], sep)
  }

  /** Python's `s.split(sep)` for a one-character separator: never an empty list. */
  function Split(s: string, sep: char): (r: seq<string>)
    ensures |r| >= 1
  {
    if s == [] then [[]]
    else
      var rest := Split(s[1..], sep);
      if s[0] == sep then [[]] + rest
      else [[s[0]] + rest[0]] + rest[1..]
  }

  /** No piece of a split holds the separator. */
  lemma {:induction false} SplitPiecesFree(s: string, sep: char)
    ensures forall k :: 0 <= k < |Split(s, sep)| ==> sep !in Split(s, sep)[k]
    decreases |s|
  {
    if s != [] {
      SplitPiecesFree(s[1..], sep);
    }
  }

  /** Joining the pieces of a split with the separator gives the text back. */
  lemma {:induction false} JoinSplit(s: string, sep: char)
    ensures Join(Split(s, sep), sep) == s
    decreases |s|
  {
    if s != [] {
      var rest := Split(s[1..], sep);
      JoinSplit(s[1..], sep);
      if s[0] != sep {
        assert Join(rest, sep) == rest[0] + (if |rest| == 1 then [] else [sep] + Join(rest[1..], sep));
      }
    }
  }

  /** A piece without separators, followed by a separator, is split off as one piece. */
  lemma {:induction false} SplitCons(t: string, u: string, sep: char)
    requires sep !in t
    ensures Split(t + [sep] + u, sep) == [t] + Split(u, sep)
    decreases |t|
  {
    if t == [] {
      assert t + [sep] + u == [sep] + u;
      assert ([sep] + u)[1..] == u;
    } else {
      SplitCons(t[1..], u, sep);
      assert (t + [sep] + u)[1..] == t[1..] + [sep] + u;
      assert [t[0]] + t[1..] == t;
    }
  }

  /** A string without separators splits into itself. */
  lemma {:induction false} SplitNone(t: string, sep: char)
    requires sep !in t
    ensures Split(t, sep) == [t]
    decreases |t|
  {
    if t != [] {
      SplitNone(t[1..], sep);
      assert [t[0]] + t[1..] == t;
    }
  }

  /** Splitting undoes joining: `Join(ps).split(sep) == ps` when no piece holds `sep`. */
  lemma {:induction false} SplitJoin(ps: seq<string>, sep: char)
    requires |ps| >= 1
    requires forall k :: 0 <= k < |ps| ==> sep !in ps[k]
    ensures Split(Join(ps, sep), sep) == ps
    decreases |ps|
  {
    if |ps| == 1 {
      SplitNone(ps[0], sep);
    } else {
      SplitJoin(ps[1..], sep);
      SplitCons(ps[0], Join(ps[1..], sep), sep);
      assert [ps[0]] + ps[1..] == ps;
    }
  }

  // ---------------------------------------------------------------------------
  // str.title (ASCII approximation)
  // ---------------------------------------------------------------------------

  /** A letter with case; in this approximation only the ASCII letters are cased. */
  predicate IsCased(c: char) {
    ('a' <= c <= 'z') || ('A' <= c <= 'Z')
  }

  function ToUpper(c: char): char {
    if 'a' <= c <= 'z' then (c as int - 32) as char else c
  }

  function ToLower(c: char): char {
    if 'A' <= c <= 'Z' then (c as int + 32) as char else c
  }

  /**
    One character of a title-cased string: a cased character becomes upper
    case after an uncased one and lower case after a cased one; any other
    character is kept.
  */
  function TitleChar(c: char, prevCased: bool): char {
    if !IsCased(c) then c else if prevCased then ToLower(c) else ToUpper(c)
  }

  /**
    The title-cased form of `s` when the character before it was (`prevCased`)
    or was not cased: a cased character becomes upper case when it follows an
    uncased one and lower case when it follows a cased one; every other
    character is kept.
  */
  function TitleAfter(s: string, prevCased: bool): (r: string)
    ensures |r| == |s|
    ensures forall i :: 0 <= i < |s| ==>
              r[i] == TitleChar(s[i], if i == 0 then prevCased else IsCased(s[i - 1]))
    decreases |s|
  {
    if s == [] then []
    else
      var rest := TitleAfter(s[1..], IsCased(s[0]));
      assert forall i :: 1 <= i < |s| ==> s[1..][i - 1] == s[i];
      [TitleChar(s[0], prevCased)] + rest
  }

  /** Python's `s.title()`: every word starts upper case and continues lower case. */
  function Title(s: string): string {
    TitleAfter(s, false)
  }

  /** Title-casing a character keeps it cased or uncased, and doing it twice changes nothing. */
  lemma TitleCharStable(c: char, prevCased: bool)
    ensures IsCased(TitleChar(c, prevCased)) == IsCased(c)
    ensures TitleChar(TitleChar(c, prevCased), prevCased) == TitleChar(c, prevCased)
  {
  }

  /** Title-casing keeps which characters are cased, so applying it twice changes nothing. */
  lemma TitleIdempotent(s: string)
    ensures Title(Title(s)) == Title(s)
  {
    var t := Title(s);
    var tt := Title(t);
    forall i | 0 <= i < |s|
      ensures tt[i] == t[i]
    {
      TitleCharStable(s[i], i > 0 && IsCased(s[i - 1]));
      if i > 0 {
        TitleCharStable(s[i - 1], i > 1 && IsCased(s[i - 2]));
      }
    }
  }
}
