/**
 * `re.match(r"^(#+)\s*(.+)", line)` from generate_toc_from_ipynb, written
 * out as the backtracking search Python's regex engine performs.
 *
 * The engine first lets `#+` take the whole run of leading `#`, then lets
 * `\s*` take the whole run of whitespace after it, and asks `.` (anything
 * but a newline) to match the next character.  When that fails it gives
 * back one whitespace character at a time; when `\s*` has nothing left to
 * give back, `#+` gives back one `#` and the search starts over.  The first
 * success fixes group 1 (the `#` taken) and the start of group 2, which
 * `.+` then extends greedily up to the first newline or the end of the line.
 *
 * Consequences: `###` matches with group 1 `##` and group 2 `#`; `#\n` does
 * not match at all; `#\nabc` matches with group 2 `abc` because `\s*` may
 * swallow the newline; group 2 never contains a newline.
 */
module HeadingMatch {
  import opened PyStr
  import opened Wrappers

  /** The two groups of a successful match: `m.group(1)` and `m.group(2)`. */
  datatype Groups = Groups(hashes: string, text: string)

  /** The pattern can match with group 1 = `s[..k]` and group 2 starting at
      `p`: at least one `#`, only whitespace between them, and a character
      at `p` that `.` accepts. */
  ghost predicate Candidate(s: string, k: int, p: int) {
    && 1 <= k <= p < |s|
    && (forall i :: 0 <= i < k ==> s[i] == '#')
    && (forall i :: k <= i < p ==> IsSpace(s[i]))
    && s[p] != '\n'
  }

  /** Length of the leading run of `#`: where the greedy `#+` first stops. */
  function HashRun(s: string): (n: nat)
    ensures n <= |s|
    ensures forall i :: 0 <= i < n ==> s[i] == '#'
    ensures n == |s| || s[n] != '#'
  {
    if s == [] || s[0] != '#' then 0 else 1 + HashRun(s[1..])
  }

  /** Length of the whitespace run starting at `from`: where the greedy
      `\s*` first stops. */
  function SpaceRun(s: string, from: nat): (n: nat)
    requires from <= |s|
    ensures from + n <= |s|
    ensures forall i :: from <= i < from + n ==> IsSpace(s[i])
    ensures from + n == |s| || !IsSpace(s[from + n])
    decreases |s| - from
  {
    if from == |s| || !IsSpace(s[from]) then 0 else 1 + SpaceRun(s, from + 1)
  }

  /** Length of the run of non-newline characters starting at `from`: how
      far the greedy `.+` extends. */
  function DotRun(s: string, from: nat): (n: nat)
    requires from <= |s|
    ensures from + n <= |s|
    ensures forall i :: from <= i < from + n ==> s[i] != '\n'
    ensures from + n == |s| || s[from + n] == '\n'
    decreases |s| - from
  {
    if from == |s| || s[from] == '\n' then 0 else 1 + DotRun(s, from + 1)
  }

  /** Backtracking inside `\s*`: with `\s*` having taken `s[k..k + j]`, try
      to start `.` at `k + j`, then at `k + j - 1`, ..., down to `k`.  The
      result is the last (largest) start that `.` accepts. */
  function TryDot(s: string, k: nat, j: nat): (r: Option<nat>)
    requires k + j <= |s|
    ensures r.Some? ==> k <= r.value <= k + j && r.value < |s| && s[r.value] != '\n'
    ensures r.Some? ==> forall p :: r.value < p <= k + j ==> p == |s| || s[p] == '\n'
    ensures r.None? ==> forall p :: k <= p <= k + j ==> p == |s| || s[p] == '\n'
    decreases j
  {
    if k + j < |s| && s[k + j] != '\n' then Some(k + j)
    else if j == 0 then None
    else TryDot(s, k, j - 1)
  }

  /** Backtracking inside `#+`: with `#+` having taken `s[..k]`, try every
      length of `\s*`; if none works give back one `#` and retry.  The result
      is the pair (length of group 1, start of group 2) the engine settles on:
      the greatest candidate in the order (k, p), among those with at most
      `k` hashes. */
  function Backtrack(s: string, k: nat): (r: Option<(nat, nat)>)
    requires k <= HashRun(s)
    ensures r.Some? ==> r.value.0 <= k && Candidate(s, r.value.0, r.value.1)
    ensures r.Some? ==> forall k', p' :: k' <= k && Candidate(s, k', p') ==>
                          k' < r.value.0 || (k' == r.value.0 && p' <= r.value.1)
    ensures r.None? ==> forall k', p' :: k' <= k ==> !Candidate(s, k', p')
    decreases k
  {
    if k == 0 then None
    else
      var w := SpaceRun(s, k);
      match TryDot(s, k, w)
      case Some(p) =>
        Some((k, p))
      case None =>
        Backtrack(s, k - 1)
  }

  /** `re.match(r"^(#+)\s*(.+)", s)`: `None` exactly when no candidate split
      exists; otherwise group 1 is a non-empty run of `#` and group 2 is a
      non-empty text without newline. */
  function MatchHeading(s: string): (r: Option<Groups>)
    ensures r.None? <==> forall k, p :: !Candidate(s, k, p)
    ensures r.Some? ==> 1 <= |r.value.hashes| && forall i :: 0 <= i < |r.value.hashes| ==> r.value.hashes[i] == '#'
    ensures r.Some? ==> r.value.text != [] && '\n' !in r.value.text
  {
    CandidateWithinHashRun(s);
    match Backtrack(s, HashRun(s))
    case None => None
    case Some((k, p)) =>
      var text := s[p..p + DotRun(s, p)];
      assert text[0] == s[p];
      Some(Groups(s[..k], text))
  }

  /** A candidate never takes more `#` than the leading run holds. */
  lemma CandidateWithinHashRun(s: string)
    ensures forall k, p :: Candidate(s, k, p) ==> k <= HashRun(s)
  {
    forall k, p | Candidate(s, k, p) ensures k <= HashRun(s) {
      var n := HashRun(s);
      assert n == |s| || s[n] != '#';
    }
  }

  /** What the match means: group 1 is the prefix of `k` hashes and group 2
      is the maximal newline-free text starting at `p`, where (k, p) is the
      candidate the engine prefers over every other (more `#` first, then
      more whitespace swallowed). */
  lemma MatchHeadingGroups(s: string, m: Groups)
    requires MatchHeading(s) == Some(m)
    ensures m.hashes == s[..|m.hashes|]
    ensures exists p :: && Candidate(s, |m.hashes|, p)
                        && p + |m.text| <= |s| && s[p..p + |m.text|] == m.text
                        && (p + |m.text| == |s| || s[p + |m.text|] == '\n')
                        && (forall k', p' :: Candidate(s, k', p') ==>
                              k' < |m.hashes| || (k' == |m.hashes| && p' <= p))
  {
    CandidateWithinHashRun(s);
    var kp := Backtrack(s, HashRun(s)).value;
    var p := kp.1;
    assert p + |m.text| <= |s| && s[p..p + |m.text|] == m.text;
  }

  /** A line that does not start with `#`, or is shorter than two
      characters, never matches. */
  lemma NoMatchWithoutHashAndText(s: string)
    requires |s| < 2 || s[0] != '#'
    ensures MatchHeading(s).None?
  {
  }

  /** A `#` followed by any character other than a newline always matches. */
  lemma MatchWhenTextFollows(s: string)
    requires |s| >= 2 && s[0] == '#' && s[1] != '\n'
    ensures MatchHeading(s).Some?
  {
    assert Candidate(s, 1, 1);
  }

  lemma OnlyHashesLine()
    ensures MatchHeading("###") == Some(Groups("##", "#"))
  {
    var s := "###";
    assert HashRun(s) == 3 && SpaceRun(s, 3) == 0 && TryDot(s, 3, 0).None?;
    assert SpaceRun(s, 2) == 0 && TryDot(s, 2, 0) == Some(2);
    assert DotRun(s, 2) == 1;
    assert s[..2] == "##" && s[2..3] == "#";
  }

  lemma HashNewlineLine()
    ensures MatchHeading("#\n") == None
  {
  }

  lemma NewlineSwallowedLine()
    ensures MatchHeading("#\nabc") == Some(Groups("#", "abc"))
  {
    var s := "#\nabc";
    assert HashRun(s) == 1 && SpaceRun(s, 1) == 1 && TryDot(s, 1, 1) == Some(2);
    assert DotRun(s, 2) == 3;
    assert s[..1] == "#" && s[2..5] == "abc";
  }
}
