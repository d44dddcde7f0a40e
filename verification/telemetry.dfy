/**
 * The telemetry snapshot the controller keeps from the miner's console output
 * (`current`: hashrate, accepted/rejected/invalid shares, power, temperature),
 * how one normalised line updates it (`parse_line`), and the reader loop that
 * feeds it line by line and raises block-found notifications.
 *
 * Each field has its own chain of patterns, tried in order; a field changes
 * only when a pattern of its chain matches and the captured token converts.
 * Hashrate and power readings are kept as the accepted decimal text.
 */
module Telemetry {
  import opened Wrappers
  import opened Text
  import opened Normalize
  import opened Patterns
  import opened Events

  // ------------------------------------------------------------ conversions

  /** Number of occurrences of c in t. */
  function Count(t: string, c: char): (n: nat)
    ensures n <= |t|
    ensures n == 0 <==> c !in t
  {
    if t == [] then 0 else (if t[0] == c then 1 else 0) + Count(t[1..], c)
  }

  /** The `[\d.]+` tokens that `float()` accepts: at least one digit and at most one '.'. */
  predicate IsDecimal(t: string) {
    (forall k | 0 <= k < |t| :: InClass(NumChar, t[k])) &&
    (exists k | 0 <= k < |t| :: IsDigit(t[k])) &&
    Count(t, '.') <= 1
  }

  /** `float(tok)` inside `try`: the token when it converts, nothing when the conversion raises. */
  function Accept(t: string): Option<string> {
    if IsDecimal(t) then Some(t) else None
  }

  /**
   * CPython's default cap on the number of digits `int()` converts from a
   * string (`sys.get_int_max_str_digits()`); a longer string raises ValueError.
   */
  const MaxIntDigits: nat := 4300

  /** `int(t)` on a string: its decimal value when it is all ASCII digits, and not too long. */
  function ParseInt(t: string): (r: Option<nat>)
    ensures r.Some? <==> 0 < |t| <= MaxIntDigits && forall k | 0 <= k < |t| :: IsDigit(t[k])
  {
    if 0 < |t| <= MaxIntDigits && forall k | 0 <= k < |t| :: IsDigit(t[k]) then Some(DigitsValue(t)) else None
  }

  /** `v.replace('-', '0')` */
  function DashToZero(t: string): (r: string)
    ensures |r| == |t|
    ensures forall k | 0 <= k < |t| :: r[k] == (if t[k] == '-' then '0' else t[k])
  {
    if t == [] then [] else [if t[0] == '-' then '0' else t[0]] + DashToZero(t[1..])
  }

  /** `_to_int`: the share count a `[0-9-]+` token stands for, 0 when `int()` raises. */
  function ToInt(v: string): nat {
    ParseInt(DashToZero(v)).GetOr(0)
  }

  /** On every share token of at most 4300 characters, `int()` succeeds: the fallback to 0 is not taken. */
  lemma ToIntConverts(v: string)
    requires GroupOk(DashDigit, v, v) && |v| <= MaxIntDigits
    ensures ParseInt(DashToZero(v)).Some?
    ensures ToInt(v) == DigitsValue(DashToZero(v))
  {
  }

  /** A share token longer than the digit cap makes `int()` raise, so it reads as 0. */
  lemma ToIntTooLong(v: string)
    requires |v| > MaxIntDigits
    ensures ToInt(v) == 0
  {
  }

  lemma {:induction false} ZerosValue(t: string)
    requires forall k | 0 <= k < |t| :: t[k] == '0'
    ensures DigitsValue(t) == 0
  {
    if t != [] {
      ZerosValue(t[..|t| - 1]);
    }
  }

  /** A placeholder of dashes reads as zero shares. */
  lemma DashOnlyIsZero(v: string)
    requires |v| > 0 && forall k | 0 <= k < |v| :: v[k] == '-'
    ensures ToInt(v) == 0
  {
    ZerosValue(DashToZero(v));
  }

  /** A token without dashes, within the digit cap, reads as its decimal value. */
  lemma ToIntDigits(v: string)
    requires 0 < |v| <= MaxIntDigits && forall k | 0 <= k < |v| :: IsDigit(v[k])
    ensures ToInt(v) == DigitsValue(v)
  {
    var d := DashToZero(v);
    forall k | 0 <= k < |v|
      ensures d[k] == v[k]
    {
      assert v[k] != '-';
    }
    assert d == v;
    assert ParseInt(v) == Some(DigitsValue(v));
  }

  // ---------------------------------------------------------------- readings

  datatype Shares = Shares(accepted: nat, rejected: nat, invalid: nat)

  /** Hashrate: the labelled pattern wins outright; otherwise the last `<tok> mh` figure. */
  function HashrateReading(s: string): Option<string> {
    match Search(MinerHr, s, 0)
    case Some(m) => Accept(m.groups[0])
    case None =>
      var figures := FindMh(s, 0);
      if figures == [] then None else Accept(figures[|figures| - 1].groups[0])
  }

  /** The share match: the labelled `A/R/I` triple, else the pipe table row. */
  function SharesMatch(s: string): (r: Option<Match>)
    ensures r.Some? ==> |r.value.groups| == 3 && forall k | 0 <= k < 3 :: GroupOk(DashDigit, s, r.value.groups[k])
  {
    var m := Search(AriLabel, s, 0);
    if m.Some? then m else Search(AriTable, s, 0)
  }

  /** Shares: all three counters from one match, each token read with dashes as zeros. */
  function SharesReading(s: string): Option<Shares> {
    match SharesMatch(s)
    case None => None
    case Some(m) =>
      Some(Shares(ToInt(m.groups[0]), ToInt(m.groups[1]), ToInt(m.groups[2])))
  }

  /** The power match: labelled, else table layout, else a bare figure when the line holds "C/". */
  function PowerMatch(s: string): (r: Option<Match>)
    ensures r.Some? ==> |r.value.groups| == 1 && GroupOk(NumChar, s, r.value.groups[0])
  {
    var m1 := Search(PwrLabel, s, 0);
    if m1.Some? then m1
    else
      var m2 := Search(PwrTable, s, 0);
      if m2.Some? then m2
      else if Contains(s, "C/") then Search(BareWatt, s, 0)
      else None
  }

  /** Power: the token of the first pattern that matches, when it converts. */
  function PowerReading(s: string): Option<string> {
    match PowerMatch(s)
    case None => None
    case Some(m) => Accept(m.groups[0])
  }

  /** Temperature: the core figure of the leftmost `<digits>C/<digits>C`. */
  function TempReading(s: string): Option<nat> {
    match Search(TempPair, s, 0)
    case None => None
    case Some(m) => Some(DigitsValue(m.groups[0]))
  }

  // ---------------------------------------------------------------- snapshot

  datatype Snapshot = Snapshot(mh: string, a: nat, r: nat, i: nat, pw: string, tc: nat)

  /** The snapshot before any line is read. */
  const Initial: Snapshot := Snapshot("0.0", 0, 0, 0, "0.0", 0)

  /** The snapshot after `parse_line` has read one raw line. */
  function Apply(snap: Snapshot, raw: string): Snapshot {
    var s := NormalizeLine(raw);
    var shares := SharesReading(s);
    Snapshot(
      HashrateReading(s).GetOr(snap.mh),
      if shares.Some? then shares.value.accepted else snap.a,
      if shares.Some? then shares.value.rejected else snap.r,
      if shares.Some? then shares.value.invalid else snap.i,
      PowerReading(s).GetOr(snap.pw),
      TempReading(s).GetOr(snap.tc))
  }

  /** The snapshot after the reader loop has read the raw lines in order. */
  function ApplyAll(snap: Snapshot, lines: seq<string>): Snapshot
    decreases |lines|
  {
    if lines == [] then snap else ApplyAll(Apply(snap, TrimLineEnd(lines[0])), lines[1..])
  }

  /** A notification: the announcing line and the snapshot as it stood when it was raised. */
  datatype BlockEvent = BlockEvent(line: string, before: Snapshot)

  /** The notifications the reader loop raises for the lines, starting from snap. */
  function BlockEvents(snap: Snapshot, lines: seq<string>): seq<BlockEvent>
    decreases |lines|
  {
    if lines == [] then []
    else
      var line := TrimLineEnd(lines[0]);
      (if IsBlockFound(line) then [BlockEvent(line, snap)] else []) +
      BlockEvents(Apply(snap, line), lines[1..])
  }

  /** One line of the reader loop: what remains to be read shrinks by that line's effect. */
  lemma ReadStep(start: Snapshot, logged0: seq<BlockEvent>, lines: seq<string>, n: nat,
                 before: Snapshot, logged: seq<BlockEvent>)
    requires n < |lines|
    requires ApplyAll(before, lines[n..]) == ApplyAll(start, lines)
    requires logged0 + BlockEvents(start, lines) == logged + BlockEvents(before, lines[n..])
    ensures var line := TrimLineEnd(lines[n]);
      var after := Apply(before, line);
      var raised := if IsBlockFound(line) then [BlockEvent(line, before)] else [];
      ApplyAll(after, lines[n + 1..]) == ApplyAll(start, lines) &&
      logged0 + BlockEvents(start, lines) == (logged + raised) + BlockEvents(after, lines[n + 1..])
  {
    assert lines[n..][0] == lines[n];
    assert lines[n..][1..] == lines[n + 1..];
  }

  /** `rstrip("\r\n")`: the line without its trailing carriage returns and newlines. */
  function TrimLineEnd(s: string): (r: string)
    ensures |r| <= |s| && r == s[..|r|]
    ensures r == [] || (r[|r| - 1] != '\r' && r[|r| - 1] != '\n')
    ensures forall k | |r| <= k < |s| :: s[k] == '\r' || s[k] == '\n'
  {
    if s != [] && (s[|s| - 1] == '\r' || s[|s| - 1] == '\n') then TrimLineEnd(s[..|s| - 1]) else s
  }

  // ------------------------------------------------------------ pattern chains

  /** With no `<tok> mh` figure anywhere, `re.findall` returns nothing. */
  lemma {:induction false} NoFigureFindsNothing(s: string, p: nat)
    requires p <= |s| && NoMatch(MhFigure, s)
    ensures FindMh(s, p) == []
    decreases |s| - p
  {
    assert MhFigureAt(s, p) == MatchAt(MhFigure, s, p);
    if p < |s| {
      NoFigureFindsNothing(s, p + 1);
    }
  }

  /** A labelled hashrate match decides on its own: its token, or no update when it does not convert. */
  lemma HashrateLabelled(s: string, m: Match)
    requires IsLeftmost(MinerHr, s, m)
    ensures HashrateReading(s) == Accept(m.groups[0])
  {
    SearchFinds(MinerHr, s, m);
  }

  /** Without a labelled match, the hashrate comes from the last `<tok> mh` figure of the line. */
  lemma HashrateLastFigure(s: string, m: Match)
    requires NoMatch(MinerHr, s) && IsLastFigure(s, m)
    ensures HashrateReading(s) == Accept(m.groups[0])
  {
    SearchMisses(MinerHr, s);
    FigureListed(s, m);
    var figures := FindMh(s, 0);
    FindMhLast(s, 0);
    LastFigureUnique(s, figures[|figures| - 1], m);
  }

  lemma SearchMisses(pat: Pattern, s: string)
    requires NoMatch(pat, s)
    ensures Search(pat, s, 0) == None
  {
    SearchLeftmost(pat, s, 0);
  }

  /** A line with a figure has a non-empty `re.findall` list. */
  lemma FigureListed(s: string, m: Match)
    requires m.start <= |s| && MhFigureAt(s, m.start) == Some(m)
    ensures FindMh(s, 0) != []
  {
    if FindMh(s, 0) == [] {
      FindMhEmpty(s, 0);
      assert false;
    }
  }

  /** With neither pattern matching, the hashrate is not updated. */
  lemma HashrateMiss(s: string)
    requires NoMatch(MinerHr, s) && NoMatch(MhFigure, s)
    ensures HashrateReading(s) == None
  {
    NoFigureFindsNothing(s, 0);
  }

  /** The labelled `A/R/I` triple sets all three counters together. */
  lemma SharesLabelled(s: string, m: Match)
    requires IsLeftmost(AriLabel, s, m)
    ensures SharesReading(s) == Some(Shares(ToInt(m.groups[0]), ToInt(m.groups[1]), ToInt(m.groups[2])))
  {
    SearchFinds(AriLabel, s, m);
  }

  /** Only when the labelled triple is absent does the pipe table row set the counters. */
  lemma SharesTable(s: string, m: Match)
    requires NoMatch(AriLabel, s) && IsLeftmost(AriTable, s, m)
    ensures SharesReading(s) == Some(Shares(ToInt(m.groups[0]), ToInt(m.groups[1]), ToInt(m.groups[2])))
  {
    SearchFinds(AriTable, s, m);
  }

  /** With neither share pattern matching, none of the three counters changes. */
  lemma SharesMiss(s: string)
    requires NoMatch(AriLabel, s) && NoMatch(AriTable, s)
    ensures SharesReading(s) == None
  {
  }

  /** A labelled power match decides on its own, even when its token does not convert. */
  lemma PowerLabelled(s: string, m: Match)
    requires IsLeftmost(PwrLabel, s, m)
    ensures PowerReading(s) == Accept(m.groups[0])
  {
    SearchFinds(PwrLabel, s, m);
  }

  /** Without a labelled match, the table layout decides. */
  lemma PowerTable(s: string, m: Match)
    requires NoMatch(PwrLabel, s) && IsLeftmost(PwrTable, s, m)
    ensures PowerReading(s) == Accept(m.groups[0])
  {
    SearchFinds(PwrTable, s, m);
  }

  /** The bare `<tok> w` figure is read only when the line holds "C/" and the other two miss. */
  lemma PowerBare(s: string, m: Match)
    requires NoMatch(PwrLabel, s) && NoMatch(PwrTable, s) && IsLeftmost(BareWatt, s, m)
    ensures PowerReading(s) == if Contains(s, "C/") then Accept(m.groups[0]) else None
  {
    SearchFinds(BareWatt, s, m);
  }

  /** With no pattern of the chain matching, the power is not updated. */
  lemma PowerMiss(s: string)
    requires NoMatch(PwrLabel, s) && NoMatch(PwrTable, s) && NoMatch(BareWatt, s)
    ensures PowerReading(s) == None
  {
  }

  /** The temperature is the first figure of the leftmost `<digits>C/<digits>C`. */
  lemma TempLeftmost(s: string, m: Match)
    requires IsLeftmost(TempPair, s, m)
    ensures TempReading(s) == Some(DigitsValue(m.groups[0]))
  {
    SearchFinds(TempPair, s, m);
  }

  /** Without such a pair the temperature is not updated. */
  lemma TempMiss(s: string)
    requires NoMatch(TempPair, s)
    ensures TempReading(s) == None
  {
  }

  // ------------------------------------------------------------- snapshots

  /** A line on which no pattern matches leaves the snapshot as it was. */
  lemma ApplyUntouched(snap: Snapshot, raw: string)
    requires forall pat: Pattern :: NoMatch(pat, NormalizeLine(raw))
    ensures Apply(snap, raw) == snap
  {
    var s := NormalizeLine(raw);
    HashrateMiss(s);
    SharesMiss(s);
    PowerMiss(s);
    TempMiss(s);
  }

  /** A token without a digit never converts. */
  lemma NoDigitRejected(s: string, g: string)
    requires GroupOk(NumChar, s, g)
    requires forall k | 0 <= k < |s| :: !IsDigit(s[k])
    ensures Accept(g) == None
  {
    forall k | 0 <= k < |g|
      ensures !IsDigit(g[k])
    {
      assert g[k] in s;
    }
  }

  /** No digit in a line: the hashrate is not updated. */
  lemma HashrateNoDigits(s: string)
    requires forall k | 0 <= k < |s| :: !IsDigit(s[k])
    ensures HashrateReading(s) == None
  {
    match Search(MinerHr, s, 0)
    case Some(m) =>
      NoDigitRejected(s, m.groups[0]);
    case None =>
      var figures := FindMh(s, 0);
      if figures != [] {
        var m := figures[|figures| - 1];
        FindMhMatches(s, 0);
        assert m in figures;
        NoDigitRejected(s, m.groups[0]);
      }
  }

  /** No digit in a line: the share counters are kept or all set to zero. */
  lemma SharesNoDigits(s: string)
    requires forall k | 0 <= k < |s| :: !IsDigit(s[k])
    ensures SharesReading(s) == None || SharesReading(s) == Some(Shares(0, 0, 0))
  {
    match SharesMatch(s)
    case None =>
    case Some(m) =>
      forall j | 0 <= j < 3
        ensures ToInt(m.groups[j]) == 0
      {
        var g := m.groups[j];
        assert GroupOk(DashDigit, s, g);
        forall k | 0 <= k < |g|
          ensures g[k] == '-'
        {
          assert g[k] in s;
        }
        DashOnlyIsZero(g);
      }
  }

  /** Both share patterns need a '/': a line without one never updates the counters. */
  lemma SharesNeedSlash(s: string)
    requires '/' !in s
    ensures SharesReading(s) == None
  {
    SearchMisses(AriLabel, s);
    SearchMisses(AriTable, s);
  }

  /** No digit in a line: the power is not updated. */
  lemma PowerNoDigits(s: string)
    requires forall k | 0 <= k < |s| :: !IsDigit(s[k])
    ensures PowerReading(s) == None
  {
    match PowerMatch(s)
    case None =>
    case Some(m) =>
      NoDigitRejected(s, m.groups[0]);
  }

  /** No digit in a line: the temperature pattern cannot match. */
  lemma TempNoDigits(s: string)
    requires forall k | 0 <= k < |s| :: !IsDigit(s[k])
    ensures TempReading(s) == None
  {
    var r := Search(TempPair, s, 0);
    if r.Some? {
      assert r.value.groups[0][0] in s;
    }
  }

  /**
   * A line without digits changes neither hashrate, power nor temperature,
   * and can set the share counters only to zero (a `-/-/-` placeholder).
   */
  lemma ApplyNoDigits(snap: Snapshot, raw: string)
    requires forall k | 0 <= k < |raw| :: !IsDigit(raw[k])
    ensures var after := Apply(snap, raw);
      after.mh == snap.mh && after.pw == snap.pw && after.tc == snap.tc &&
      ((after.a, after.r, after.i) == (snap.a, snap.r, snap.i) || (after.a, after.r, after.i) == (0, 0, 0))
    ensures '/' !in raw ==> Apply(snap, raw) == snap
  {
    var s := NormalizeLine(raw);
    NormalizeLineChars(raw);
    assert forall k | 0 <= k < |s| :: !IsDigit(s[k]);
    HashrateNoDigits(s);
    SharesNoDigits(s);
    PowerNoDigits(s);
    TempNoDigits(s);
    if '/' !in raw {
      assert '/' !in s;
      SharesNeedSlash(s);
    }
  }

  // ------------------------------------------------------------------- state

  /** The shared `current` record and the notifications raised so far. */
  class Monitor {
    var mh: string
    var a: nat
    var r: nat
    var i: nat
    var pw: string
    var tc: nat
    var events: seq<BlockEvent>

    function Current(): Snapshot
      reads this
    {
      Snapshot(mh, a, r, i, pw, tc)
    }

    constructor ()
      ensures Current() == Initial && events == []
    {
      mh, a, r, i, pw, tc := "0.0", 0, 0, 0, "0.0", 0;
      events := [];
    }

    /** `parse_line`: normalise the line, then update each field from its own pattern chain. */
    method ParseLine(raw: string)
      modifies this
      ensures Current() == Apply(old(Current()), raw)
      ensures events == old(events)
    {
      var line := NormalizeLine(raw);
      UpdateHashrate(line);
      UpdateShares(line);
      UpdatePower(line);
      UpdateTemp(line);
    }

    method UpdateHashrate(line: string)
      modifies this
      ensures Current() == old(Current()).(mh := HashrateReading(line).GetOr(old(mh)))
      ensures events == old(events)
    {
      var m := Search(MinerHr, line, 0);
      if m.Some? {
        var v := Accept(m.value.groups[0]);
        if v.Some? {
          mh := v.value;
        }
      } else {
        var figures := FindMh(line, 0);
        if figures != [] {
          var v := Accept(figures[|figures| - 1].groups[0]);
          if v.Some? {
            mh := v.value;
          }
        }
      }
    }

    method UpdateShares(line: string)
      modifies this
      ensures var shares := SharesReading(line);
        Current() == if shares.Some? then old(Current()).(a := shares.value.accepted,
          r := shares.value.rejected, i := shares.value.invalid) else old(Current())
      ensures events == old(events)
    {
      var m := SharesMatch(line);
      if m.Some? {
        var g := m.value.groups;
        a, r, i := ToInt(g[0]), ToInt(g[1]), ToInt(g[2]);
      }
    }

    method UpdatePower(line: string)
      modifies this
      ensures Current() == old(Current()).(pw := PowerReading(line).GetOr(old(pw)))
      ensures events == old(events)
    {
      var m := PowerMatch(line);
      if m.Some? {
        var v := Accept(m.value.groups[0]);
        if v.Some? {
          pw := v.value;
        }
      }
    }

    method UpdateTemp(line: string)
      modifies this
      ensures Current() == old(Current()).(tc := TempReading(line).GetOr(old(tc)))
      ensures events == old(events)
    {
      var m := Search(TempPair, line, 0);
      if m.Some? {
        tc := DigitsValue(m.value.groups[0]);
      }
    }

    /** One pass of the reader loop: strip the line end, test for a found block, then parse. */
    method Ingest(raw: string)
      modifies this
      ensures var line := TrimLineEnd(raw);
        Current() == Apply(old(Current()), line) &&
        events == old(events) + (if IsBlockFound(line) then [BlockEvent(line, old(Current()))] else [])
    {
      var line := TrimLineEnd(raw);
      if IsBlockFound(line) {
        events := events + [BlockEvent(line, Current())];
      }
      ParseLine(line);
    }

    /** The reader loop over a finite stream of lines. */
    method ReadAll(lines: seq<string>)
      modifies this
      ensures Current() == ApplyAll(old(Current()), lines)
      ensures events == old(events) + BlockEvents(old(Current()), lines)
    {
      var n := 0;
      while n < |lines|
        invariant 0 <= n <= |lines|
        invariant ApplyAll(Current(), lines[n..]) == ApplyAll(old(Current()), lines)
        invariant old(events) + BlockEvents(old(Current()), lines) ==
          events + BlockEvents(Current(), lines[n..])
      {
        ReadStep(old(Current()), old(events), lines, n, Current(), events);
        Ingest(lines[n]);
        n := n + 1;
      }
      assert lines[n..] == [];
    }
  }
}
