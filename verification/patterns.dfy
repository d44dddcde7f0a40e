/**
 * The regular expressions `parse_line` applies to a normalised line, each as
 * a function giving the match that Python's backtracking engine finds when it
 * tries the pattern at one index, plus `re.search` (the leftmost index that
 * matches) and `re.findall` (non-overlapping matches, left to right).
 *
 * Where a greedy repetition is followed by something its own characters
 * cannot start, giving characters back can never help, so only the longest
 * repetition is tried; the comments name the one place where backtracking
 * does find other matches.
 */
module Patterns {
  import opened Wrappers
  import opened Text

  /** The character classes used by the patterns. */
  datatype Class =
    | Space       // \s
    | Digit       // \d
    | NonDigit    // [^0-9], [^\d]
    | NumChar     // [\d.]
    | DashDigit   // [0-9-]
    | ColonSpace  // [:\s]

  predicate InClass(cls: Class, c: char) {
    match cls
    case Space => IsSpace(c)
    case Digit => IsDigit(c)
    case NonDigit => !IsDigit(c)
    case NumChar => IsDigit(c) || c == '.'
    case DashDigit => IsDigit(c) || c == '-'
    case ColonSpace => c == ':' || IsSpace(c)
  }

  /** End of the longest run of `cls` characters starting at index p. */
  function RunEnd(cls: Class, s: string, p: nat): (e: nat)
    requires p <= |s|
    ensures p <= e <= |s|
    ensures e == |s| || !InClass(cls, s[e])
    decreases |s| - p
  {
    if p < |s| && InClass(cls, s[p]) then RunEnd(cls, s, p + 1) else p
  }

  /** Every character of the run is in the class. */
  lemma {:induction false} RunIn(cls: Class, s: string, p: nat, k: nat)
    requires p <= |s| && p <= k < RunEnd(cls, s, p)
    ensures InClass(cls, s[k])
    decreases k - p
  {
    if p < k {
      RunIn(cls, s, p + 1, k);
    }
  }

  /** The literal `lit` (lower case) occurs at index p, ignoring ASCII case when ci. */
  predicate LitAt(s: string, p: nat, lit: string, ci: bool)
    decreases |lit|
  {
    |lit| == 0 ||
    (p < |s| && (if ci then FoldAscii(s[p]) else s[p]) == lit[0] && LitAt(s, p + 1, lit[1..], ci))
  }

  lemma {:induction false} LitAtBounds(s: string, p: nat, lit: string, ci: bool)
    requires p <= |s| && LitAt(s, p, lit, ci)
    ensures p + |lit| <= |s|
    decreases |lit|
  {
    if |lit| > 0 {
      assert p < |s| && LitAt(s, p + 1, lit[1..], ci);
      LitAtBounds(s, p + 1, lit[1..], ci);
    }
  }

  /** `\b` before a word character at index p. */
  predicate WordStart(s: string, p: nat)
    requires p <= |s|
  {
    p == 0 || !IsWordChar(s[p - 1])
  }

  /** `\b` after a word character that ends at index q. */
  predicate WordEnd(s: string, q: nat) {
    q >= |s| || !IsWordChar(s[q])
  }

  predicate CharAt(s: string, p: nat, c: char) {
    p < |s| && s[p] == c
  }

  /** A match: where it starts, where it ends, and the text of its groups. */
  datatype Match = Match(start: nat, end: nat, groups: seq<string>)

  /** m is a non-empty match of `pat` at index p of s with the pattern's groups. */
  predicate Fits(pat: Pattern, s: string, p: nat, m: Match) {
    m.start == p < m.end <= |s| && |m.groups| == GroupCount(pat) &&
    forall k | 0 <= k < |m.groups| :: GroupOk(GroupClass(pat), s, m.groups[k])
  }

  /** The patterns of `parse_line`, named after the field they feed. */
  datatype Pattern =
    | MinerHr    // \bminer\s*hr\b[^0-9]*([\d.]+)\s*mh\b             (re.I)
    | MhFigure   // ([\d.]+)\s*mh(?!w)\b                             (re.I)
    | AriLabel   // \bA/R/I[:\s]+([0-9-]+)/([0-9-]+)/([0-9-]+)         (re.I)
    | AriTable   // \|\s*\d+:\d+\s*\|\s*([0-9-]+)/([0-9-]+)/([0-9-]+)\s*\|
    | PwrLabel   // \bpwr\b[^\d]*([\d.]+)\s*w\b                       (re.I)
    | PwrTable   // \|\s*(?:\d+\s*%|\s*)\s*\|\s*([\d.]+)\s*w\s*\|      (re.I)
    | BareWatt   // ([\d.]+)\s*w\b                                   (re.I)
    | TempPair   // (\d+)C/(\d+)C

  function GroupCount(pat: Pattern): nat {
    match pat
    case AriLabel => 3
    case AriTable => 3
    case TempPair => 2
    case _ => 1
  }

  /** The class every character of every group of `pat` belongs to. */
  function GroupClass(pat: Pattern): Class {
    match pat
    case AriLabel => DashDigit
    case AriTable => DashDigit
    case TempPair => Digit
    case _ => NumChar
  }

  /**
   * `[^0-9]*([\d.]+)\s*UNIT\b` at index r0, trying token starts from t down to r0.
   * The greedy `[^0-9]*` first stops at the first digit; when the rest fails it
   * gives back characters one at a time, so a token may also start at a '.'
   * before that digit. The token itself is always the longest `[\d.]` run from
   * its start, since a shorter one is followed by a `[\d.]` character and not by
   * the unit. Result: token start, token end, match end.
   */
  function TokenUnit(s: string, r0: nat, t: nat, unit: string): (r: Option<(nat, nat, nat)>)
    requires r0 <= t <= |s|
    ensures r.Some? ==> r0 <= r.value.0 < r.value.1 < r.value.2 <= |s|
    ensures r.Some? ==> r.value.1 == RunEnd(NumChar, s, r.value.0)
    decreases t - r0
  {
    var u := RunEnd(NumChar, s, t);
    var v := RunEnd(Space, s, u);
    if u > t && |unit| > 0 && LitAt(s, v, unit, true) && WordEnd(s, v + |unit|) then
      LitAtBounds(s, v, unit, true);
      Some((t, u, v + |unit|))
    else if t == r0 then None
    else TokenUnit(s, r0, t - 1, unit)
  }

  /** `([0-9-]+)/([0-9-]+)/([0-9-]+)` at index c: the three groups and the end. */
  function Triple(s: string, c: nat): (r: Option<(string, string, string, nat)>)
    requires c <= |s|
    ensures r.Some? ==> c < r.value.3 <= |s|
    ensures r.Some? ==>
      GroupOk(DashDigit, s, r.value.0) && GroupOk(DashDigit, s, r.value.1) && GroupOk(DashDigit, s, r.value.2)
  {
    var g1 := RunEnd(DashDigit, s, c);
    if g1 > c && CharAt(s, g1, '/') then
      var g2 := RunEnd(DashDigit, s, g1 + 1);
      if g2 > g1 + 1 && CharAt(s, g2, '/') then
        var g3 := RunEnd(DashDigit, s, g2 + 1);
        if g3 > g2 + 1 then
          SliceOk(DashDigit, s, c, g1);
          SliceOk(DashDigit, s, g1 + 1, g2);
          SliceOk(DashDigit, s, g2 + 1, g3);
          Some((s[c..g1], s[g1 + 1..g2], s[g2 + 1..g3], g3))
        else None
      else None
    else None
  }

  /** g is a non-empty group of `cls` characters, each of them a character of s. */
  predicate GroupOk(cls: Class, s: string, g: string) {
    |g| > 0 && forall k | 0 <= k < |g| :: InClass(cls, g[k]) && g[k] in s
  }

  lemma SliceOk(cls: Class, s: string, i: nat, j: nat)
    requires i <= |s| && i < j == RunEnd(cls, s, i)
    ensures GroupOk(cls, s, s[i..j])
  {
    forall k | 0 <= k < j - i
      ensures InClass(cls, s[i..j][k]) && s[i..j][k] in s
    {
      RunIn(cls, s, i, i + k);
      assert s[i..j][k] == s[i + k];
    }
  }

  function MinerHrAt(s: string, p: nat): (r: Option<Match>)
    requires p <= |s|
    ensures r.Some? ==> Fits(MinerHr, s, p, r.value)
  {
    if WordStart(s, p) && LitAt(s, p, "miner", true) then
      LitAtBounds(s, p, "miner", true);
      var q := RunEnd(Space, s, p + 5);
      if LitAt(s, q, "hr", true) && WordEnd(s, q + 2) then
        LitAtBounds(s, q, "hr", true);
        match TokenUnit(s, q + 2, RunEnd(NonDigit, s, q + 2), "mh")
        case Some((t, u, e)) => SliceOk(NumChar, s, t, u); Some(Match(p, e, [s[t..u]]))
        case None => None
      else None
    else None
  }

  function MhFigureAt(s: string, p: nat): (r: Option<Match>)
    requires p <= |s|
    ensures r.Some? ==> Fits(MhFigure, s, p, r.value)
  {
    var u := RunEnd(NumChar, s, p);
    var v := RunEnd(Space, s, u);
    if u > p && LitAt(s, v, "mh", true) && !(v + 2 < |s| && FoldAscii(s[v + 2]) == 'w') && WordEnd(s, v + 2) then
      LitAtBounds(s, v, "mh", true);
      SliceOk(NumChar, s, p, u);
      Some(Match(p, v + 2, [s[p..u]]))
    else None
  }

  lemma UnitLetters(s: string, v: nat)
    requires v <= |s| && LitAt(s, v, "mh", true)
    ensures v + 2 <= |s| && !InClass(NumChar, s[v]) && !InClass(NumChar, s[v + 1])
  {
    assert "mh"[1..] == "h";
    assert LitAt(s, v + 1, "h", true);
  }

  function AriLabelAt(s: string, p: nat): (r: Option<Match>)
    requires p <= |s|
    ensures r.Some? ==> Fits(AriLabel, s, p, r.value)
  {
    if WordStart(s, p) && LitAt(s, p, "a/r/i", true) then
      LitAtBounds(s, p, "a/r/i", true);
      var c := RunEnd(ColonSpace, s, p + 5);
      if c > p + 5 then
        match Triple(s, c)
        case Some((g1, g2, g3, e)) => Some(Match(p, e, [g1, g2, g3]))
        case None => None
      else None
    else None
  }

  function AriTableAt(s: string, p: nat): (r: Option<Match>)
    requires p <= |s|
    ensures r.Some? ==> Fits(AriTable, s, p, r.value)
  {
    if CharAt(s, p, '|') then
      var a := RunEnd(Space, s, p + 1);
      var b := RunEnd(Digit, s, a);
      if b > a && CharAt(s, b, ':') then
        var c := RunEnd(Digit, s, b + 1);
        var d := RunEnd(Space, s, c);
        if c > b + 1 && CharAt(s, d, '|') then
          match Triple(s, RunEnd(Space, s, d + 1))
          case Some((g1, g2, g3, f)) =>
            var h := RunEnd(Space, s, f);
            if CharAt(s, h, '|') then Some(Match(p, h + 1, [g1, g2, g3])) else None
          case None => None
        else None
      else None
    else None
  }

  function PwrLabelAt(s: string, p: nat): (r: Option<Match>)
    requires p <= |s|
    ensures r.Some? ==> Fits(PwrLabel, s, p, r.value)
  {
    if WordStart(s, p) && LitAt(s, p, "pwr", true) && WordEnd(s, p + 3) then
      LitAtBounds(s, p, "pwr", true);
      match TokenUnit(s, p + 3, RunEnd(NonDigit, s, p + 3), "w")
      case Some((t, u, e)) => SliceOk(NumChar, s, t, u); Some(Match(p, e, [s[t..u]]))
      case None => None
    else None
  }

  /**
   * The bar that closes `\|\s*(?:\d+\s*%|\s*)\s*\|` opened at index p. After the
   * opening bar and its spaces, a digit commits the match to the `\d+\s*%`
   * branch (the other branch would need a '|' there); anything else to the
   * empty branch.
   */
  function PercentCell(s: string, p: nat): (r: Option<nat>)
    requires p < |s|
    ensures r.Some? ==> p < r.value < |s| && s[r.value] == '|'
  {
    var a := RunEnd(Space, s, p + 1);
    if a < |s| && IsDigit(s[a]) then
      var c := RunEnd(Space, s, RunEnd(Digit, s, a));
      if CharAt(s, c, '%') then
        var d := RunEnd(Space, s, c + 1);
        if CharAt(s, d, '|') then Some(d) else None
      else None
    else if CharAt(s, a, '|') then Some(a)
    else None
  }

  function PwrTableAt(s: string, p: nat): (r: Option<Match>)
    requires p <= |s|
    ensures r.Some? ==> Fits(PwrTable, s, p, r.value)
  {
    if CharAt(s, p, '|') then
      match PercentCell(s, p)
      case Some(bar) =>
        var e := RunEnd(Space, s, bar + 1);
        var u := RunEnd(NumChar, s, e);
        var v := RunEnd(Space, s, u);
        if u > e && LitAt(s, v, "w", true) then
          LitAtBounds(s, v, "w", true);
          var x := RunEnd(Space, s, v + 1);
          if CharAt(s, x, '|') then SliceOk(NumChar, s, e, u); Some(Match(p, x + 1, [s[e..u]])) else None
        else None
      case None => None
    else None
  }

  function BareWattAt(s: string, p: nat): (r: Option<Match>)
    requires p <= |s|
    ensures r.Some? ==> Fits(BareWatt, s, p, r.value)
  {
    var u := RunEnd(NumChar, s, p);
    var v := RunEnd(Space, s, u);
    if u > p && LitAt(s, v, "w", true) && WordEnd(s, v + 1) then
      LitAtBounds(s, v, "w", true);
      SliceOk(NumChar, s, p, u);
      Some(Match(p, v + 1, [s[p..u]]))
    else None
  }

  function TempPairAt(s: string, p: nat): (r: Option<Match>)
    requires p <= |s|
    ensures r.Some? ==> Fits(TempPair, s, p, r.value)
  {
    var b := RunEnd(Digit, s, p);
    if b > p && CharAt(s, b, 'C') && CharAt(s, b + 1, '/') then
      var c := RunEnd(Digit, s, b + 2);
      if c > b + 2 && CharAt(s, c, 'C') then
        SliceOk(Digit, s, p, b);
        SliceOk(Digit, s, b + 2, c);
        Some(Match(p, c + 1, [s[p..b], s[b + 2..c]]))
      else None
    else None
  }

  /** The function that tries one pattern at one index. */
  function Matcher(pat: Pattern): (string, nat) --> Option<Match> {
    match pat
    case MinerHr => MinerHrAt
    case MhFigure => MhFigureAt
    case AriLabel => AriLabelAt
    case AriTable => AriTableAt
    case PwrLabel => PwrLabelAt
    case PwrTable => PwrTableAt
    case BareWatt => BareWattAt
    case TempPair => TempPairAt
  }

  lemma MatcherFits(pat: Pattern, s: string, p: nat)
    requires p <= |s|
    ensures Matcher(pat).requires(s, p)
    ensures Matcher(pat)(s, p).Some? ==> Fits(pat, s, p, Matcher(pat)(s, p).value)
  {
  }

  /** The match Python finds when it tries `pat` at index p of s. */
  function MatchAt(pat: Pattern, s: string, p: nat): (r: Option<Match>)
    requires p <= |s|
    ensures r.Some? ==> r.value.start == p < r.value.end <= |s| && |r.value.groups| == GroupCount(pat)
  {
    MatcherFits(pat, s, p);
    Matcher(pat)(s, p)
  }

  /** `re.search(pat, s)` from index p on: the first index that matches. */
  function Search(pat: Pattern, s: string, p: nat): (r: Option<Match>)
    requires p <= |s|
    ensures r.Some? ==> p <= r.value.start <= |s| && MatchAt(pat, s, r.value.start) == r
    decreases |s| - p
  {
    match MatchAt(pat, s, p)
    case Some(m) => Some(m)
    case None => if p == |s| then None else Search(pat, s, p + 1)
  }

  /** m is what `pat` matches at its start, and no earlier index matches. */
  predicate IsLeftmost(pat: Pattern, s: string, m: Match) {
    m.start <= |s| && MatchAt(pat, s, m.start) == Some(m) &&
    forall q | 0 <= q < m.start :: MatchAt(pat, s, q).None?
  }

  /** No index of s matches `pat`. */
  predicate NoMatch(pat: Pattern, s: string) {
    forall q | 0 <= q <= |s| :: MatchAt(pat, s, q).None?
  }

  /** `Search` is `re.search`: it returns the leftmost match, and nothing only when no index matches. */
  lemma {:induction false} SearchLeftmost(pat: Pattern, s: string, p: nat)
    requires p <= |s|
    requires forall q | 0 <= q < p :: MatchAt(pat, s, q).None?
    ensures Search(pat, s, p).Some? ==> IsLeftmost(pat, s, Search(pat, s, p).value)
    ensures Search(pat, s, p).None? ==> NoMatch(pat, s)
    decreases |s| - p
  {
    match MatchAt(pat, s, p)
    case Some(m) =>
      assert Search(pat, s, p) == Some(m);
    case None =>
      if p < |s| {
        SearchLeftmost(pat, s, p + 1);
        assert Search(pat, s, p) == Search(pat, s, p + 1);
      }
  }

  /** A pattern has at most one leftmost match. */
  lemma LeftmostUnique(pat: Pattern, s: string, m1: Match, m2: Match)
    requires IsLeftmost(pat, s, m1) && IsLeftmost(pat, s, m2)
    ensures m1 == m2
  {
    assert m1.start == m2.start;
  }

  /** `re.search` finds every leftmost match, and reports nothing only when no index matches. */
  lemma SearchFinds(pat: Pattern, s: string, m: Match)
    requires IsLeftmost(pat, s, m)
    ensures Search(pat, s, 0) == Some(m)
  {
    SearchLeftmost(pat, s, 0);
    if Search(pat, s, 0).Some? {
      LeftmostUnique(pat, s, m, Search(pat, s, 0).value);
    }
  }

  /** `re.findall(r'([\d.]+)\s*mh(?!w)\b', s, re.I)` from index p on, as matches. */
  function FindMh(s: string, p: nat): (r: seq<Match>)
    requires p <= |s|
    ensures forall k | 0 <= k < |r| :: |r[k].groups| == 1
    decreases |s| - p
  {
    match MhFigureAt(s, p)
    case Some(m) => [m] + FindMh(s, m.end)
    case None => if p == |s| then [] else FindMh(s, p + 1)
  }

  /** Every element of `re.findall` is a figure match at its own start. */
  lemma {:induction false} FindMhMatches(s: string, p: nat)
    requires p <= |s|
    ensures forall m | m in FindMh(s, p) :: m.start <= |s| && MhFigureAt(s, m.start) == Some(m)
    decreases |s| - p
  {
    match MhFigureAt(s, p)
    case Some(m) =>
      FindMhMatches(s, m.end);
    case None =>
      if p < |s| {
        FindMhMatches(s, p + 1);
      }
  }

  /** After a figure match, or after an index where none starts, the scan never stands inside a matching number. */
  predicate ScanPoint(s: string, p: nat)
    requires p <= |s|
  {
    p == 0 || !InClass(NumChar, s[p - 1]) || MhFigureAt(s, p).None?
  }

  /**
   * m is the last `<number> mh` figure of s: it matches at the start of a
   * number and no figure starts at or after its end.
   */
  predicate IsLastFigure(s: string, m: Match) {
    m.start <= |s| && MhFigureAt(s, m.start) == Some(m) &&
    (m.start == 0 || !InClass(NumChar, s[m.start - 1])) &&
    forall q | m.end <= q <= |s| :: MhFigureAt(s, q).None?
  }

  /** A figure cannot start inside a number whose start does not match. */
  lemma FigureShift(s: string, p: nat)
    requires p < |s| && InClass(NumChar, s[p]) && MhFigureAt(s, p).None?
    ensures MhFigureAt(s, p + 1).None?
  {
    assert RunEnd(NumChar, s, p) == RunEnd(NumChar, s, p + 1);
  }

  /** A figure is a number followed by characters that cannot continue a number. */
  lemma FigureShape(s: string, p: nat)
    requires p <= |s| && MhFigureAt(s, p).Some?
    ensures var m := MhFigureAt(s, p).value;
      p < RunEnd(NumChar, s, p) < m.end &&
      forall k | RunEnd(NumChar, s, p) <= k < m.end :: !InClass(NumChar, s[k])
  {
    var u := RunEnd(NumChar, s, p);
    var v := RunEnd(Space, s, u);
    UnitLetters(s, v);
    forall k | u <= k < v
      ensures !InClass(NumChar, s[k])
    {
      RunIn(Space, s, u, k);
    }
  }

  lemma FigureEnd(s: string, p: nat) returns (e: nat)
    requires p <= |s| && MhFigureAt(s, p).Some?
    ensures e == MhFigureAt(s, p).value.end && p < e <= |s| && ScanPoint(s, e)
  {
    FigureShape(s, p);
    e := MhFigureAt(s, p).value.end;
  }

  lemma FigureSkip(s: string, p: nat)
    requires p <= |s| && ScanPoint(s, p) && MhFigureAt(s, p).None? && FindMh(s, p) != []
    ensures p < |s| && ScanPoint(s, p + 1) && FindMh(s, p) == FindMh(s, p + 1)
  {
    if InClass(NumChar, s[p]) {
      FigureShift(s, p);
    }
  }

  lemma FindMhCons(s: string, p: nat)
    requires p <= |s| && ScanPoint(s, p) && MhFigureAt(s, p).Some?
    requires var m := MhFigureAt(s, p).value;
      FindMh(s, m.end) == [] ==> forall q | m.end <= q <= |s| :: MhFigureAt(s, q).None?
    requires var m := MhFigureAt(s, p).value;
      FindMh(s, m.end) != [] ==> IsLastFigure(s, FindMh(s, m.end)[|FindMh(s, m.end)| - 1])
    ensures IsLastFigure(s, FindMh(s, p)[|FindMh(s, p)| - 1])
  {
    var m := MhFigureAt(s, p).value;
    var rest := FindMh(s, m.end);
    assert FindMh(s, p) == [m] + rest;
    if rest == [] {
      assert IsLastFigure(s, m);
    } else {
      assert FindMh(s, p)[|FindMh(s, p)| - 1] == rest[|rest| - 1];
    }
  }

  /** `re.findall` returns nothing only when no figure starts anywhere from p on. */
  lemma {:induction false} FindMhEmpty(s: string, p: nat)
    requires p <= |s| && FindMh(s, p) == []
    ensures forall q | p <= q <= |s| :: MhFigureAt(s, q).None?
    decreases |s| - p
  {
    if p < |s| {
      FindMhEmpty(s, p + 1);
    }
  }

  /** The last element of `re.findall` is the last figure of the line. */
  lemma {:induction false} FindMhLast(s: string, p: nat)
    requires p <= |s| && ScanPoint(s, p) && FindMh(s, p) != []
    ensures IsLastFigure(s, FindMh(s, p)[|FindMh(s, p)| - 1])
    decreases |s| - p, 1
  {
    if MhFigureAt(s, p).None? {
      FigureSkip(s, p);
      FindMhLast(s, p + 1);
    } else {
      FindMhLastFrom(s, p);
    }
  }

  lemma {:induction false} FindMhLastFrom(s: string, p: nat)
    requires p <= |s| && ScanPoint(s, p) && MhFigureAt(s, p).Some?
    ensures IsLastFigure(s, FindMh(s, p)[|FindMh(s, p)| - 1])
    decreases |s| - p, 0
  {
    var e := FigureEnd(s, p);
    if FindMh(s, e) == [] {
      FindMhEmpty(s, e);
    } else {
      FindMhLast(s, e);
    }
    FindMhCons(s, p);
  }

  /** A line has at most one last figure. */
  lemma LastFigureUnique(s: string, m1: Match, m2: Match)
    requires IsLastFigure(s, m1) && IsLastFigure(s, m2)
    ensures m1 == m2
  {
    if m1.start < m2.start {
      InsideFigure(s, m1, m2.start);
    } else if m2.start < m1.start {
      InsideFigure(s, m2, m1.start);
    }
  }

  /** No figure starts at the start of a number strictly inside another figure. */
  lemma InsideFigure(s: string, m: Match, q: nat)
    requires m.start <= |s| && MhFigureAt(s, m.start) == Some(m) && m.start < q < m.end
    ensures InClass(NumChar, s[q - 1]) || MhFigureAt(s, q).None?
  {
    FigureShape(s, m.start);
    var u := RunEnd(NumChar, s, m.start);
    if u <= q {
      assert !InClass(NumChar, s[q]);
    } else {
      RunIn(NumChar, s, m.start, q - 1);
    }
  }
}
