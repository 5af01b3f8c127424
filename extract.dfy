/**
  `clean_gemini` (app.py): pulls the JSON object out of the model's reply by
  deleting code-fence markers, trimming whitespace and taking the match of the
  regular expression `\{.*\}` (DOTALL), or `"{}"` when nothing matches.
*/
module Extract {
  import opened Wrappers
  import opened PyStr

  /** The language-tagged fence marker, removed before the bare one. */
  const FenceJson := "```json"

  /** What `clean_gemini` returns when the text holds no object. */
  const EmptyObject := "{}"

  // ---------------------------------------------------------------------------
  // First '{', last '}'
  // ---------------------------------------------------------------------------

  /** Index of the first `c` in `s`, or `|s|` when there is none. */
  function IndexOf(s: string, c: char): (r: nat)
    ensures r <= |s|
    ensures r < |s| ==> s[r] == c
    ensures forall k :: 0 <= k < r ==> s[k] != c
    decreases |s|
  {
    if s == [] then 0
    else if s[0] == c then 0
    else 1 + IndexOf(s[1..], c)
  }

  /** Index of the last `c` in `s`, or `-1` when there is none. */
  function LastIndexOf(s: string, c: char): (r: int)
    ensures -1 <= r < |s|
    ensures r >= 0 ==> s[r] == c
    ensures forall k :: r < k < |s| ==> s[k] != c
    decreases |s|
  {
    if s == [] then -1
    else if s[|s| - 1] == c then |s| - 1
    else LastIndexOf(s[..|s| - 1], c)
  }

  /** Some `'{'` in `s` has a `'}'` somewhere after it. */
  predicate HasObjectSpan(s: string) {
    exists i, j :: 0 <= i < j < |s| && s[i] == '{' && s[j] == '}'
  }

  /**
    The reference reading of `\{.*\}` with DOTALL: the slice from the first
    `'{'` through the last `'}'`, when the first comes before the last.
  */
  function ObjectSpan(s: string): Option<string> {
    var a := IndexOf(s, '{');
    var b := LastIndexOf(s, '}');
    if a < b then Some(s[a..b + 1]) else None
  }

  /** The span exists exactly when some `'{'` precedes some `'}'`. */
  lemma ObjectSpanExists(s: string)
    ensures ObjectSpan(s).Some? <==> HasObjectSpan(s)
  {
    var a := IndexOf(s, '{');
    var b := LastIndexOf(s, '}');
    if HasObjectSpan(s) {
      var i, j :| 0 <= i < j < |s| && s[i] == '{' && s[j] == '}';
      assert a <= i && j <= b;
    }
  }

  // ---------------------------------------------------------------------------
  // The regular-expression search
  // ---------------------------------------------------------------------------

  /**
    Backtracking for `.*\}` with the opening brace at `i`: the greedy `.*`
    first runs to the end of the text, then gives characters back until the
    one after it is `'}'`. Tries end positions `j`, `j - 1`, ..., `i + 1`.
  */
  function ClosingFrom(s: string, i: nat, j: int): (r: Option<nat>)
    requires i < |s| && j < |s|
    ensures r.Some? ==> i < r.value <= j && s[r.value] == '}'
    ensures r.Some? ==> forall k :: r.value < k <= j ==> s[k] != '}'
    ensures r.None? ==> forall k :: i < k <= j ==> s[k] != '}'
    decreases j - i
  {
    if j <= i then None
    else if s[j] == '}' then Some(j)
    else ClosingFrom(s, i, j - 1)
  }

  /**
    `re.search` tries start positions from `i` on, left to right; at a `'{'`
    it keeps the first (greedy) end that matches, and moves on when there is
    none.
  */
  function SearchFrom(s: string, i: nat): Option<string>
    requires i <= |s|
    decreases |s| - i
  {
    if i == |s| then None
    else if s[i] == '{' then
      match ClosingFrom(s, i, |s| - 1)
      case Some(j) => Some(s[i..j + 1])
      case None => SearchFrom(s, i + 1)
    else SearchFrom(s, i + 1)
  }

  /** With no `'}'` at or after `i`, the search from `i` finds nothing. */
  lemma {:induction false} SearchFromNone(s: string, i: nat)
    requires i <= |s|
    requires forall k :: i <= k < |s| ==> s[k] != '}'
    ensures SearchFrom(s, i) == None
    decreases |s| - i
  {
    if i < |s| {
      SearchFromNone(s, i + 1);
    }
  }

  /** Searching from any start up to the first `'{'` finds the reference span. */
  lemma {:induction false} SearchFromSpan(s: string, i: nat)
    requires i <= IndexOf(s, '{')
    ensures SearchFrom(s, i) == ObjectSpan(s)
    decreases |s| - i
  {
    var a := IndexOf(s, '{');
    var b := LastIndexOf(s, '}');
    if i == |s| {
    } else if i < a {
      SearchFromSpan(s, i + 1);
    } else if a >= b {
      SearchFromNone(s, i + 1);
    }
  }

  /** `re.search(r'\{.*\}', s, re.DOTALL)`: its match, if any. */
  function Search(s: string): (r: Option<string>)
    ensures r == ObjectSpan(s)
  {
    SearchFromSpan(s, 0);
    SearchFrom(s, 0)
  }

  // ---------------------------------------------------------------------------
  // clean_gemini
  // ---------------------------------------------------------------------------

  /** The text the search runs on: both fence markers deleted, then stripped. */
  function Unfenced(text: string): (r: string)
    ensures !Contains(r, Fence)
  {
    var noFence := Replace(Replace(text, FenceJson, []), Fence, []);
    RemoveFenceLeavesNone(Replace(text, FenceJson, []));
    if Contains(Strip(noFence), Fence) then
      StripContains(noFence, Fence);
      assert false;
      []
    else
      Strip(noFence)
  }

  /** Starts with `'{'` and ends with a different `'}'`. */
  predicate BraceDelimited(r: string) {
    |r| >= 2 && r[0] == '{' && r[|r| - 1] == '}'
  }

  /**
    The last step of `clean_gemini`: the match of `\{.*\}` in `s`, or `"{}"`
    when there is none. It always starts with `'{'` and ends with a different
    `'}'`, and on fence-free text it is fence-free.
  */
  function MatchOrEmpty(s: string): (r: string)
    ensures BraceDelimited(r)
    ensures !Contains(s, Fence) ==> !Contains(r, Fence)
  {
    match Search(s)
    case Some(m) =>
      if Contains(s, Fence) then m
      else
        SpanHasNoFence(s);
        m
    case None =>
      assert !OccursAt(EmptyObject, Fence, 0);
      EmptyObject
  }

  /**
    `clean_gemini(text)`: whatever the model replied, the result starts with
    `'{'`, ends with a different `'}'` and holds no fence marker.
  */
  function CleanGemini(text: string): (r: string)
    ensures BraceDelimited(r)
    ensures !Contains(r, Fence)
  {
    MatchOrEmpty(Unfenced(text))
  }

  /** The span of a fence-free text is fence-free. */
  lemma SpanHasNoFence(s: string)
    requires !Contains(s, Fence)
    requires ObjectSpan(s).Some?
    ensures !Contains(ObjectSpan(s).value, Fence)
  {
    if Contains(ObjectSpan(s).value, Fence) {
      ContainsInSlice(s, IndexOf(s, '{'), LastIndexOf(s, '}') + 1, Fence);
    }
  }

  /**
    The match, by index: when some `'{'` in `s` has a `'}'` after it, the
    result is exactly `s` from its first `'{'` through its last `'}'` (greedy,
    across newlines, not brace-balanced), a contiguous part of `s`; otherwise
    it is `"{}"`.
  */
  lemma MatchOrEmptySpan(s: string)
    ensures MatchOrEmpty(s) ==
              if HasObjectSpan(s) then s[IndexOf(s, '{')..LastIndexOf(s, '}') + 1] else EmptyObject
  {
    ObjectSpanExists(s);
  }

  /**
    What `clean_gemini` returns, by index, with `S` the fence-free, stripped
    text: `S` from its first `'{'` through its last `'}'` when some `'{'` in
    `S` has a `'}'` after it, and `"{}"` otherwise.
  */
  lemma CleanGeminiSpan(text: string)
    ensures var s := Unfenced(text);
            CleanGemini(text) ==
              if HasObjectSpan(s) then s[IndexOf(s, '{')..LastIndexOf(s, '}') + 1] else EmptyObject
  {
    MatchOrEmptySpan(Unfenced(text));
  }

  /** Fence-free text that starts with `'{'` and ends with `'}'` is left alone by the clean-up. */
  lemma UnfencedFixed(r: string)
    requires BraceDelimited(r) && !Contains(r, Fence)
    ensures Unfenced(r) == r
  {
    if Contains(r, FenceJson) {
      assert FenceJson == Fence + "json";
      ContainsPrefixOfPattern(r, Fence, "json");
    }
    ReplaceAbsent(r, FenceJson, []);
    ReplaceAbsent(r, Fence, []);
    StripTrimmed(r);
  }

  /** Text that starts with `'{'` and ends with `'}'` is its own match. */
  lemma MatchOrEmptyFixed(r: string)
    requires BraceDelimited(r)
    ensures MatchOrEmpty(r) == r
  {
    assert IndexOf(r, '{') == 0 && LastIndexOf(r, '}') == |r| - 1;
    assert r[0..|r|] == r;
  }

  /** A cleaned text cleans to itself. */
  lemma CleanGeminiIdempotent(text: string)
    ensures CleanGemini(CleanGemini(text)) == CleanGemini(text)
  {
    var r := CleanGemini(text);
    UnfencedFixed(r);
    MatchOrEmptyFixed(r);
  }
}
