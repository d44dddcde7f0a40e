/**
 * The line normalisation that runs before every telemetry pattern
 * (`_despace_letters` and `_normalize_line`).
 *
 * Each of the three `re.sub` passes is modelled as the left-to-right scan
 * that `re.sub` performs, and each scan is proved equal to one instance of
 * `DeleteRuns`: a whitespace character is dropped exactly when the nearest
 * non-whitespace characters on its left and on its right satisfy the rule.
 */
module Normalize {
  import opened Wrappers
  import opened Text

  /** The three rewrites of `_normalize_line`, in the order they run. */
  datatype Rule =
    | LetterGap      // `((?:[A-Za-z]\s+)+[A-Za-z])` with its spaces removed
    | DigitGap       // `(?<=\d)\s+(?=[\d.])` -> ''
    | SlashAdjacent  // `\s*/\s*` -> '/'

  /** Does one of `rules` delete a whitespace run whose neighbours are left and right? */
  predicate Deletes(rules: set<Rule>, left: Option<char>, right: Option<char>) {
    (LetterGap in rules && left.Some? && IsLetter(left.value) && right.Some? && IsLetter(right.value)) ||
    (DigitGap in rules && left.Some? && IsDigit(left.value) && right.Some? &&
      (IsDigit(right.value) || right.value == '.')) ||
    (SlashAdjacent in rules && (left == Some('/') || right == Some('/')))
  }

  const AllRules: set<Rule> := {LetterGap, DigitGap, SlashAdjacent}

  /** The first non-whitespace character of s. */
  function NextNonSpace(s: string): Option<char> {
    var n := SpaceRun(s);
    if n < |s| then Some(s[n]) else None
  }

  /** The last non-whitespace character of s. */
  function LastNonSpace(s: string): Option<char> {
    if s == [] then None
    else if !IsSpace(s[|s| - 1]) then Some(s[|s| - 1])
    else LastNonSpace(s[..|s| - 1])
  }

  /**
   * Specification: s with every whitespace character deleted whose nearest
   * non-whitespace neighbours (`left`, the last one before s, and the first
   * one after it inside s) satisfy `rules`. Whole runs go or stay together.
   */
  function DeleteRuns(s: string, left: Option<char>, rules: set<Rule>): string
    decreases |s|
  {
    if s == [] then []
    else if IsSpace(s[0]) then
      (if Deletes(rules, left, NextNonSpace(s)) then [] else [s[0]]) + DeleteRuns(s[1..], left, rules)
    else [s[0]] + DeleteRuns(s[1..], Some(s[0]), rules)
  }

  // ---------------------------------------------------------------- step 1

  /**
   * End of the match of `(?:[A-Za-z]\s+)+[A-Za-z]` (or of its last letter,
   * when no space follows) at the start of s. Every `\s+` must be followed by a
   * letter, so the greedy, backtracking match is the longest chain of letters
   * joined by whitespace runs.
   */
  function ChainEnd(s: string): (e: nat)
    requires s != [] && IsLetter(s[0])
    ensures 1 <= e <= |s| && IsLetter(s[e - 1])
    decreases |s|
  {
    var n := SpaceRun(s[1..]);
    if 0 < n && 1 + n < |s| && IsLetter(s[1 + n]) then 1 + n + ChainEnd(s[1 + n..]) else 1
  }

  /** The end of a `_letter_chunk` match at the start of s, if there is one. */
  function LetterChunk(s: string): Option<nat> {
    if s != [] && IsLetter(s[0]) && ChainEnd(s) > 1 then Some(ChainEnd(s)) else None
  }

  /** `_despace_letters`: every chunk is replaced by itself without whitespace. */
  function DespaceLetters(s: string): string
    decreases |s|
  {
    if s == [] then []
    else match LetterChunk(s)
      case Some(e) => NonSpace(s[..e]) + DespaceLetters(s[e..])
      case None => [s[0]] + DespaceLetters(s[1..])
  }

  // ---------------------------------------------------------------- step 2

  /** A match of `(?<=\d)\s+(?=[\d.])` at index p of s: its end. */
  function DigitGapAt(s: string, p: nat): (r: Option<nat>)
    requires p <= |s|
    ensures r.Some? ==> p < r.value <= |s|
  {
    if 0 < p < |s| && IsDigit(s[p - 1]) && IsSpace(s[p]) then
      var e := p + SpaceRun(s[p..]);
      if e < |s| && (IsDigit(s[e]) || s[e] == '.') then Some(e) else None
    else None
  }

  /** `re.sub(r'(?<=\d)\s+(?=[\d.])', '', s)` from index p on. */
  function JoinDigits(s: string, p: nat): string
    requires p <= |s|
    decreases |s| - p
  {
    if p == |s| then []
    else match DigitGapAt(s, p)
      case Some(e) => JoinDigits(s, e)
      case None => [s[p]] + JoinDigits(s, p + 1)
  }

  // ---------------------------------------------------------------- step 3

  // A match of `\s*/\s*` at the start of s: its end.
  function SlashAt(s: string): (r: Option<nat>)
    ensures r.Some? ==> 0 < r.value <= |s|
  {
    var n := SpaceRun(s);
    if n < |s| && s[n] == '/' then Some(n + 1 + SpaceRun(s[n + 1..])) else None
  }

  // `re.sub(r'\s*/\s*', '/', s)`
  function JoinSlashes(s: string): string
    decreases |s|
  {
    if s == [] then []
    else match SlashAt(s)
      case Some(e) => "/" + JoinSlashes(s[e..])
      case None => [s[0]] + JoinSlashes(s[1..])
  }

  /** `_normalize_line` */
  function NormalizeLine(s: string): string {
    JoinSlashes(JoinDigits(DespaceLetters(s), 0))
  }

  // ---------------------------------------------------------------- lemmas

  lemma NextNonSpaceSkip(s: string)
    requires s != [] && IsSpace(s[0])
    ensures NextNonSpace(s) == NextNonSpace(s[1..])
  {
  }

  /** When the run at the head of s is deleted, DeleteRuns resumes after it. */
  lemma {:induction false} DropRun(s: string, left: Option<char>, rules: set<Rule>)
    requires Deletes(rules, left, NextNonSpace(s))
    ensures DeleteRuns(s, left, rules) == DeleteRuns(s[SpaceRun(s)..], left, rules)
    decreases |s|
  {
    if s != [] && IsSpace(s[0]) {
      NextNonSpaceSkip(s);
      DropRun(s[1..], left, rules);
      assert s[1..][SpaceRun(s[1..])..] == s[SpaceRun(s)..];
    }
  }

  /** Deleting whitespace never changes which non-whitespace character comes first. */
  lemma {:induction false} NextNonSpacePreserved(s: string, left: Option<char>, rules: set<Rule>)
    ensures NextNonSpace(DeleteRuns(s, left, rules)) == NextNonSpace(s)
    decreases |s|
  {
    if s != [] {
      var t := DeleteRuns(s[1..], if IsSpace(s[0]) then left else Some(s[0]), rules);
      NextNonSpacePreserved(s[1..], if IsSpace(s[0]) then left else Some(s[0]), rules);
      if IsSpace(s[0]) {
        NextNonSpaceSkip(s);
        if Deletes(rules, left, NextNonSpace(s)) {
          assert DeleteRuns(s, left, rules) == t;
        } else {
          var u := [s[0]] + t;
          assert DeleteRuns(s, left, rules) == u;
          assert u[1..] == t;
          NextNonSpaceSkip(u);
        }
      }
    }
  }

  /** DeleteRuns drops whitespace only: the other characters stay, in order. */
  lemma {:induction false} DeleteRunsKeepsNonSpace(s: string, left: Option<char>, rules: set<Rule>)
    ensures NonSpace(DeleteRuns(s, left, rules)) == NonSpace(s)
    decreases |s|
  {
    if s != [] {
      var l' := if IsSpace(s[0]) then left else Some(s[0]);
      var t := DeleteRuns(s[1..], l', rules);
      DeleteRunsKeepsNonSpace(s[1..], l', rules);
      var head := if IsSpace(s[0]) && Deletes(rules, left, NextNonSpace(s)) then [] else [s[0]];
      NonSpaceAppend(head, t);
    }
  }

  /** t can be obtained from s by deleting characters. */
  predicate IsSubsequence(t: string, s: string)
    decreases |s|
  {
    t == [] || (s != [] && ((t[0] == s[0] && IsSubsequence(t[1..], s[1..])) || IsSubsequence(t, s[1..])))
  }

  lemma {:induction false} DeleteRunsIsSubsequence(s: string, left: Option<char>, rules: set<Rule>)
    ensures IsSubsequence(DeleteRuns(s, left, rules), s)
    decreases |s|
  {
    if s != [] {
      var l' := if IsSpace(s[0]) then left else Some(s[0]);
      var t := DeleteRuns(s[1..], l', rules);
      DeleteRunsIsSubsequence(s[1..], l', rules);
      if !IsSpace(s[0]) || !Deletes(rules, left, NextNonSpace(s)) {
        var u := [s[0]] + t;
        assert DeleteRuns(s, left, rules) == u;
        assert u[1..] == t;
      } else {
        assert DeleteRuns(s, left, rules) == t;
      }
    }
  }

  /** Running two deletions one after the other deletes the union of what each deletes. */
  lemma {:induction false} DeleteRunsCompose(s: string, left: Option<char>, a: set<Rule>, b: set<Rule>)
    ensures DeleteRuns(DeleteRuns(s, left, a), left, b) == DeleteRuns(s, left, a + b)
    decreases |s|
  {
    if s != [] {
      if IsSpace(s[0]) {
        var t := DeleteRuns(s[1..], left, a);
        DeleteRunsCompose(s[1..], left, a, b);
        if Deletes(a, left, NextNonSpace(s)) {
          assert DeleteRuns(s, left, a) == t;
          assert Deletes(a + b, left, NextNonSpace(s));
          assert DeleteRuns(s, left, a + b) == DeleteRuns(s[1..], left, a + b);
        } else {
          var u := [s[0]] + t;
          assert DeleteRuns(s, left, a) == u;
          assert u[1..] == t;
          NextNonSpaceSkip(u);
          NextNonSpacePreserved(s[1..], left, a);
          NextNonSpaceSkip(s);
          assert NextNonSpace(u) == NextNonSpace(s);
          var keepB := !Deletes(b, left, NextNonSpace(s));
          assert DeleteRuns(u, left, b) == (if keepB then [s[0]] else []) + DeleteRuns(t, left, b);
          assert Deletes(a + b, left, NextNonSpace(s)) == !keepB;
        }
      } else {
        var t := DeleteRuns(s[1..], Some(s[0]), a);
        DeleteRunsCompose(s[1..], Some(s[0]), a, b);
        assert ([s[0]] + t)[1..] == t;
      }
    }
  }

  /** The chain matched by `_letter_chunk` is exactly what LetterGap deletes there. */
  lemma {:induction false} ChainSpec(s: string, left: Option<char>, e: nat)
    requires s != [] && IsLetter(s[0]) && e == ChainEnd(s)
    ensures DeleteRuns(s, left, {LetterGap}) == NonSpace(s[..e]) + DeleteRuns(s[e..], Some(s[e - 1]), {LetterGap})
    decreases |s|
  {
    var n := SpaceRun(s[1..]);
    if 0 < n && 1 + n < |s| && IsLetter(s[1 + n]) {
      var rest := s[1 + n..];
      var e' := ChainEnd(rest);
      ChainSpec(rest, Some(s[0]), e');
      ChainLink(s, left, n, rest, e', e);
    } else {
      assert e == 1;
      assert s[..1] == [s[0]];
      assert DeleteRuns(s, left, {LetterGap}) == [s[0]] + DeleteRuns(s[1..], Some(s[0]), {LetterGap});
    }
  }

  /** One step of ChainSpec: the first letter, the deleted run after it, and the rest of the chain. */
  lemma ChainLink(s: string, left: Option<char>, n: nat, rest: string, e': nat, e: nat)
    requires s != [] && IsLetter(s[0]) && 0 < n && 1 + n < |s| && IsLetter(s[1 + n])
    requires n == SpaceRun(s[1..]) && rest == s[1 + n..]
    requires 0 < e' <= |rest| && e == 1 + n + e'
    requires DeleteRuns(rest, Some(s[0]), {LetterGap}) ==
      NonSpace(rest[..e']) + DeleteRuns(rest[e'..], Some(rest[e' - 1]), {LetterGap})
    ensures DeleteRuns(s, left, {LetterGap}) == NonSpace(s[..e]) + DeleteRuns(s[e..], Some(s[e - 1]), {LetterGap})
  {
    ChainHead(s, left, n, rest);
    SliceShift(s, 1 + n, e');
    ChainPrefix(s, n, e, rest, e');
    var d := DeleteRuns(rest, Some(s[0]), {LetterGap});
    var x := NonSpace(rest[..e']);
    assert rest[e'..] == s[e..] && rest[e' - 1] == s[e - 1];
    var rd := DeleteRuns(s[e..], Some(s[e - 1]), {LetterGap});
    Regroup(DeleteRuns(s, left, {LetterGap}), [s[0]], d, x, rd, NonSpace(s[..e]));
  }

  lemma Regroup(whole: string, head: string, d: string, x: string, rd: string, pre: string)
    requires whole == head + d && d == x + rd && pre == head + x
    ensures whole == pre + rd
  {
    assert head + (x + rd) == (head + x) + rd;
  }

  /** The first letter is kept and the run after it deleted. */
  lemma ChainHead(s: string, left: Option<char>, n: nat, rest: string)
    requires s != [] && IsLetter(s[0]) && 0 < n && 1 + n < |s| && IsLetter(s[1 + n])
    requires n == SpaceRun(s[1..]) && rest == s[1 + n..]
    ensures DeleteRuns(s, left, {LetterGap}) == [s[0]] + DeleteRuns(rest, Some(s[0]), {LetterGap})
  {
    var rules := {LetterGap};
    var tail := s[1..];
    assert DeleteRuns(s, left, rules) == [s[0]] + DeleteRuns(tail, Some(s[0]), rules);
    assert NextNonSpace(tail) == Some(s[1 + n]);
    DropRun(tail, Some(s[0]), rules);
    assert tail[n..] == rest;
  }

  lemma SliceShift(s: string, a: nat, b: nat)
    requires 0 < b && a + b <= |s|
    ensures s[a..][b..] == s[a + b..] && s[a..][b - 1] == s[a + b - 1]
  {
  }

  lemma ChainPrefix(s: string, n: nat, e: nat, rest: string, e': nat)
    requires e == 1 + n + e' <= |s| && rest == s[1 + n..]
    requires n <= SpaceRun(s[1..])
    requires !IsSpace(s[0])
    ensures NonSpace(s[..e]) == [s[0]] + NonSpace(rest[..e'])
  {
    var gap := s[1..1 + n];
    forall k | 0 <= k < n
      ensures IsSpace(gap[k])
    {
      SpaceRunIn(s[1..], k);
    }
    assert s[..e] == [s[0]] + gap + rest[..e'];
    NonSpaceAppend([s[0]] + gap, rest[..e']);
    NonSpaceAppend([s[0]], gap);
    NoSpaceInRun(gap);
  }

  /** The greedy chain cannot be extended: what follows it is not a run before a letter. */
  lemma {:induction false} ChainMaximal(s: string)
    requires s != [] && IsLetter(s[0])
    ensures var e := ChainEnd(s);
      !(e < |s| && IsSpace(s[e]) && NextNonSpace(s[e..]).Some? && IsLetter(NextNonSpace(s[e..]).value))
    decreases |s|
  {
    var n := SpaceRun(s[1..]);
    if 0 < n && 1 + n < |s| && IsLetter(s[1 + n]) {
      var rest := s[1 + n..];
      ChainMaximal(rest);
      assert rest[ChainEnd(rest)..] == s[ChainEnd(s)..];
    } else if 1 < |s| && IsSpace(s[1]) {
      assert s[1..] == s[ChainEnd(s)..];
    }
  }

  lemma {:induction false} NoSpaceInRun(s: string)
    requires forall k | 0 <= k < |s| :: IsSpace(s[k])
    ensures NonSpace(s) == []
  {
    if s != [] {
      NoSpaceInRun(s[1..]);
    }
  }

  /** The letter pass after a letter cannot meet a run that is followed by a letter. */
  predicate LetterGapClosed(left: Option<char>, s: string) {
    left.Some? && IsLetter(left.value) && s != [] && IsSpace(s[0]) ==>
      !(NextNonSpace(s).Some? && IsLetter(NextNonSpace(s).value))
  }

  /** `_despace_letters` deletes exactly the whitespace runs with an ASCII letter on both sides. */
  lemma {:induction false} DespaceLettersSpec(s: string, left: Option<char>)
    requires LetterGapClosed(left, s)
    ensures DespaceLetters(s) == DeleteRuns(s, left, {LetterGap})
    decreases |s|
  {
    if s != [] {
      match LetterChunk(s)
      case Some(e) =>
        ChainSpec(s, left, e);
        ChainMaximal(s);
        DespaceLettersSpec(s[e..], Some(s[e - 1]));
      case None =>
        if IsSpace(s[0]) {
          NextNonSpaceSkip(s);
          DespaceLettersSpec(s[1..], left);
        } else {
          if IsLetter(s[0]) && 1 < |s| && IsSpace(s[1]) {
            assert ChainEnd(s) == 1;
          }
          DespaceLettersSpec(s[1..], Some(s[0]));
        }
    }
  }

  lemma {:induction false} LastNonSpaceSkip(s: string, p: nat, e: nat)
    requires p <= e <= |s|
    requires forall k | p <= k < e :: IsSpace(s[k])
    ensures LastNonSpace(s[..e]) == LastNonSpace(s[..p])
    decreases e - p
  {
    if p < e {
      assert s[..e][..e - 1] == s[..e - 1];
      LastNonSpaceSkip(s, p, e - 1);
    }
  }

  /** Index p is one `re.sub` can reach: not inside a whitespace run that a match at its start consumed. */
  predicate Reachable(s: string, p: nat, left: Option<char>, rules: set<Rule>)
    requires p <= |s|
  {
    p == 0 || p == |s| || !IsSpace(s[p - 1]) || !IsSpace(s[p]) || !Deletes(rules, left, NextNonSpace(s[p..]))
  }

  /** The digit pass deletes exactly the runs between a digit and a digit or '.'. */
  lemma {:induction false} JoinDigitsSpec(s: string, p: nat, left: Option<char>)
    requires p <= |s|
    requires left == LastNonSpace(s[..p])
    requires Reachable(s, p, left, {DigitGap})
    ensures JoinDigits(s, p) == DeleteRuns(s[p..], left, {DigitGap})
    decreases |s| - p
  {
    if p < |s| {
      match DigitGapAt(s, p)
      case Some(e) =>
        DigitGapStep(s, p, left, e);
        JoinDigitsSpec(s, e, left);
      case None =>
        if IsSpace(s[p]) {
          DigitSpaceStep(s, p, left);
          JoinDigitsSpec(s, p + 1, left);
        } else {
          DigitKeepStep(s, p, left);
          JoinDigitsSpec(s, p + 1, Some(s[p]));
        }
    }
  }

  /** A run the digit pass deletes: both sides resume after it. */
  lemma DigitGapStep(s: string, p: nat, left: Option<char>, e: nat)
    requires p < |s| && left == LastNonSpace(s[..p]) && DigitGapAt(s, p) == Some(e)
    ensures JoinDigits(s, p) == JoinDigits(s, e)
    ensures DeleteRuns(s[p..], left, {DigitGap}) == DeleteRuns(s[e..], left, {DigitGap})
    ensures left == LastNonSpace(s[..e]) && Reachable(s, e, left, {DigitGap})
  {
    assert s[..p + 1][..p] == s[..p];
    assert left == Some(s[p - 1]);
    DropRun(s[p..], left, {DigitGap});
    assert s[p..][SpaceRun(s[p..])..] == s[e..];
    RunKeepsLast(s, p, e);
  }

  /** Skipping a whitespace run leaves the last non-whitespace character as it was. */
  lemma RunKeepsLast(s: string, p: nat, e: nat)
    requires p <= |s| && e == p + SpaceRun(s[p..])
    ensures LastNonSpace(s[..e]) == LastNonSpace(s[..p])
  {
    forall k | p <= k < e
      ensures IsSpace(s[k])
    {
      SpaceRunIn(s[p..], k - p);
    }
    LastNonSpaceSkip(s, p, e);
  }

  /** A space the digit pass keeps. */
  lemma DigitSpaceStep(s: string, p: nat, left: Option<char>)
    requires p < |s| && left == LastNonSpace(s[..p]) && Reachable(s, p, left, {DigitGap})
    requires DigitGapAt(s, p).None? && IsSpace(s[p])
    ensures JoinDigits(s, p) == [s[p]] + JoinDigits(s, p + 1)
    ensures DeleteRuns(s[p..], left, {DigitGap}) == [s[p]] + DeleteRuns(s[p + 1..], left, {DigitGap})
    ensures left == LastNonSpace(s[..p + 1]) && Reachable(s, p + 1, left, {DigitGap})
  {
    DigitSpaceKept(s, p, left);
    assert s[p..][1..] == s[p + 1..];
    DigitSpaceNext(s, p, left);
  }

  /** The run holding a space the digit pass does not delete is not deleted as a whole. */
  lemma DigitSpaceKept(s: string, p: nat, left: Option<char>)
    requires p < |s| && left == LastNonSpace(s[..p]) && Reachable(s, p, left, {DigitGap})
    requires DigitGapAt(s, p).None? && IsSpace(s[p])
    ensures !Deletes({DigitGap}, left, NextNonSpace(s[p..]))
  {
    if 0 < p && !IsSpace(s[p - 1]) {
      assert s[..p][p - 1] == s[p - 1];
    }
  }

  lemma DigitSpaceNext(s: string, p: nat, left: Option<char>)
    requires p < |s| && left == LastNonSpace(s[..p])
    requires !Deletes({DigitGap}, left, NextNonSpace(s[p..])) && IsSpace(s[p])
    ensures left == LastNonSpace(s[..p + 1]) && Reachable(s, p + 1, left, {DigitGap})
  {
    assert s[..p + 1][..p] == s[..p];
    if p + 1 < |s| && IsSpace(s[p + 1]) {
      NextNonSpaceSkip(s[p..]);
      assert s[p..][1..] == s[p + 1..];
    }
  }

  /** A character other than a space, which every pass keeps. */
  lemma DigitKeepStep(s: string, p: nat, left: Option<char>)
    requires p < |s| && left == LastNonSpace(s[..p])
    requires DigitGapAt(s, p).None? && !IsSpace(s[p])
    ensures JoinDigits(s, p) == [s[p]] + JoinDigits(s, p + 1)
    ensures DeleteRuns(s[p..], left, {DigitGap}) == [s[p]] + DeleteRuns(s[p + 1..], Some(s[p]), {DigitGap})
    ensures Some(s[p]) == LastNonSpace(s[..p + 1]) && Reachable(s, p + 1, Some(s[p]), {DigitGap})
  {
    assert s[..p + 1][..p] == s[..p];
    assert s[p..][1..] == s[p + 1..];
  }

  /** The slash pass deletes exactly the runs next to a '/'. */
  lemma {:induction false} JoinSlashesSpec(s: string, left: Option<char>)
    requires left == Some('/') ==> s == [] || !IsSpace(s[0])
    ensures JoinSlashes(s) == DeleteRuns(s, left, {SlashAdjacent})
    decreases |s|
  {
    if s != [] {
      match SlashAt(s)
      case Some(e) =>
        SlashStep(s, left, e);
        JoinSlashesSpec(s[e..], Some('/'));
      case None =>
        if IsSpace(s[0]) {
          NextNonSpaceSkip(s);
          JoinSlashesSpec(s[1..], left);
        } else {
          JoinSlashesSpec(s[1..], Some(s[0]));
        }
    }
  }

  /** A slash with the runs around it: both sides give one '/' and resume after the match. */
  lemma SlashStep(s: string, left: Option<char>, e: nat)
    requires SlashAt(s) == Some(e)
    ensures JoinSlashes(s) == "/" + JoinSlashes(s[e..])
    ensures DeleteRuns(s, left, {SlashAdjacent}) == "/" + DeleteRuns(s[e..], Some('/'), {SlashAdjacent})
    ensures s[e..] == [] || !IsSpace(s[e..][0])
  {
    var rules := {SlashAdjacent};
    var n := SpaceRun(s);
    var after := s[n + 1..];
    var m := SpaceRun(after);
    assert e == n + 1 + m;
    if n > 0 {
      DropRun(s, left, rules);
    }
    assert s[n..][1..] == after;
    if m > 0 {
      DropRun(after, Some('/'), rules);
    }
    assert after[m..] == s[e..];
  }

  /**
   * `_normalize_line` deletes exactly the whitespace runs that have an ASCII
   * letter on both sides, a digit before and a digit or '.' after, or a '/'
   * on either side; nothing else changes.
   */
  lemma NormalizeLineSpec(s: string)
    ensures NormalizeLine(s) == DeleteRuns(s, None, AllRules)
  {
    var s1 := DespaceLetters(s);
    DespaceLettersSpec(s, None);
    JoinDigitsSpec(s1, 0, None);
    assert s1[0..] == s1;
    var s2 := JoinDigits(s1, 0);
    JoinSlashesSpec(s2, None);
    DeleteRunsCompose(s, None, {LetterGap}, {DigitGap});
    DeleteRunsCompose(s, None, {LetterGap, DigitGap}, {SlashAdjacent});
    assert {LetterGap} + {DigitGap} == {LetterGap, DigitGap};
    assert {LetterGap, DigitGap} + {SlashAdjacent} == AllRules;
  }

  /** A word without whitespace is copied, and its last character is the left neighbour of what follows. */
  lemma {:induction false} KeepWord(a: string, b: string, left: Option<char>, rules: set<Rule>)
    requires a != [] && forall k | 0 <= k < |a| :: !IsSpace(a[k])
    ensures DeleteRuns(a + b, left, rules) == a + DeleteRuns(b, Some(a[|a| - 1]), rules)
    decreases |a|
  {
    assert (a + b)[0] == a[0] && (a + b)[1..] == a[1..] + b;
    if |a| > 1 {
      KeepWord(a[1..], b, Some(a[0]), rules);
      assert a == [a[0]] + a[1..];
    } else {
      assert a[1..] + b == b;
    }
  }

  /** One whitespace character before a word goes or stays as its two neighbours decide. */
  lemma SingleSpace(c: char, b: string, left: Option<char>, rules: set<Rule>)
    requires IsSpace(c) && b != [] && !IsSpace(b[0])
    ensures DeleteRuns([c] + b, left, rules) ==
      (if Deletes(rules, left, Some(b[0])) then [] else [c]) + DeleteRuns(b, left, rules)
  {
    assert ([c] + b)[1..] == b;
    assert SpaceRun([c] + b) == 1;
  }

  /** Normalising an already normalised line changes nothing. */
  lemma NormalizeLineIdempotent(s: string)
    ensures NormalizeLine(NormalizeLine(s)) == NormalizeLine(s)
  {
    NormalizeLineSpec(s);
    NormalizeLineSpec(NormalizeLine(s));
    DeleteRunsCompose(s, None, AllRules, AllRules);
    assert AllRules + AllRules == AllRules;
  }

  /** Normalisation only deletes whitespace: the rest of the line is kept, in order. */
  lemma NormalizeLineOnlyDeletesSpace(s: string)
    ensures NonSpace(NormalizeLine(s)) == NonSpace(s)
    ensures IsSubsequence(NormalizeLine(s), s)
  {
    NormalizeLineSpec(s);
    DeleteRunsKeepsNonSpace(s, None, AllRules);
    DeleteRunsIsSubsequence(s, None, AllRules);
  }

  lemma {:induction false} SubsequenceChars(t: string, s: string)
    requires IsSubsequence(t, s)
    ensures forall k | 0 <= k < |t| :: t[k] in s
    decreases |s|
  {
    if t != [] {
      if t[0] == s[0] && IsSubsequence(t[1..], s[1..]) {
        SubsequenceChars(t[1..], s[1..]);
        forall k | 0 <= k < |t|
          ensures t[k] in s
        {
          if k > 0 {
            assert t[k] == t[1..][k - 1];
          }
        }
      } else {
        SubsequenceChars(t, s[1..]);
      }
    }
  }

  /** Every character of the normalised line is a character of the raw line. */
  lemma NormalizeLineChars(s: string)
    ensures forall k | 0 <= k < |NormalizeLine(s)| :: NormalizeLine(s)[k] in s
  {
    NormalizeLineOnlyDeletesSpace(s);
    SubsequenceChars(NormalizeLine(s), s);
  }
}
