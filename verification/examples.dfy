module Examples {
  import opened Wrappers
  import opened Text
  import opened Normalize
  import opened Patterns
  import opened Telemetry
  import opened Events

  /** The labelled share pattern at the start of an `A/R/I` line. */
  lemma AriLabelExample(s: string)
    requires s == "A/R/I: 12/-/3"
    ensures MatchAt(AriLabel, s, 0) == Some(Match(0, 13, ["12", "-", "3"]))
  {
    assert s[0] == 'A' && s[1] == '/' && s[2] == 'R' && s[3] == '/' && s[4] == 'I' && s[5] == ':' && s[6] == ' ';
    assert LitAt(s, 0, "a/r/i", true) by {
      assert "a/r/i"[1..] == "/r/i" && "/r/i"[1..] == "r/i" && "r/i"[1..] == "/i" && "/i"[1..] == "i" && "i"[1..] == "";
      assert LitAt(s, 4, "i", true);
      assert LitAt(s, 3, "/i", true);
      assert LitAt(s, 2, "r/i", true);
      assert LitAt(s, 1, "/r/i", true);
    }
    assert RunEnd(ColonSpace, s, 5) == 7 by {
      assert RunEnd(ColonSpace, s, 7) == 7;
    }
    assert Triple(s, 7) == Some(("12", "-", "3", 13)) by {
      TripleExample(s);
    }
  }

  lemma TripleExample(s: string)
    requires s == "A/R/I: 12/-/3"
    ensures Triple(s, 7) == Some(("12", "-", "3", 13))
  {
    assert s[7] == '1' && s[8] == '2' && s[9] == '/' && s[10] == '-' && s[11] == '/' && s[12] == '3';
    assert RunEnd(DashDigit, s, 9) == 9;
    assert RunEnd(DashDigit, s, 7) == 9;
    assert RunEnd(DashDigit, s, 11) == 11;
    assert RunEnd(DashDigit, s, 10) == 11;
    assert RunEnd(DashDigit, s, 13) == 13;
    assert RunEnd(DashDigit, s, 12) == 13;
    assert s[7..9] == "12" && s[10..11] == "-" && s[12..13] == "3";
  }

  /** A line with no whitespace run to delete is its own normal form: `A/R/I: 12/-/3`. */
  lemma AriNormalized(s: string)
    requires s == "A/R/I: 12/-/3"
    ensures NormalizeLine(s) == s
  {
    var w1, w2 := "A/R/I:", "12/-/3";
    AriWords(s, w1, w2);
    GapKept(w1, w2, ' ');
    NormalizeLineSpec(s);
  }

  lemma AriWords(s: string, w1: string, w2: string)
    requires s == "A/R/I: 12/-/3" && w1 == "A/R/I:" && w2 == "12/-/3"
    ensures s == w1 + ([' '] + w2)
    ensures forall k | 0 <= k < |w1| :: !IsSpace(w1[k])
    ensures forall k | 0 <= k < |w2| :: !IsSpace(w2[k])
  {
    forall k | 0 <= k < 6
      ensures !IsSpace(w1[k]) && !IsSpace(w2[k])
    {
    }
  }

  lemma SharesReadingExample(s: string)
    requires s == "A/R/I: 12/-/3"
    ensures SharesReading(s) == Some(Shares(12, 0, 3))
  {
    AriLabelExample(s);
    assert SharesMatch(s) == Some(Match(0, 13, ["12", "-", "3"]));
    CountsExample();
  }

  /** `A/R/I: 12/-/3` sets 12 accepted, 0 rejected (the dash) and 3 invalid shares. */
  lemma SharesExample(line: string)
    requires line == "A/R/I: 12/-/3"
    ensures var after := Apply(Initial, line);
      after.a == 12 && after.r == 0 && after.i == 3
  {
    AriNormalized(line);
    SharesReadingExample(line);
  }

  lemma CountsExample()
    ensures ToInt("12") == 12 && ToInt("-") == 0 && ToInt("3") == 3
  {
    ToIntDigits("12");
    DashOnlyIsZero("-");
    ToIntDigits("3");
    assert DigitsValue("12") == 12 by {
      assert "12"[..1] == "1";
      assert "1"[..0] == "";
    }
    assert DigitsValue("3") == 3 by {
      assert "3"[..0] == "";
    }
  }

  lemma MinerWords(w1: string, w2: string, w3: string, w4: string)
    requires w1 == "Miner" && w2 == "HR:" && w3 == "123.45" && w4 == "MH"
    ensures forall k | 0 <= k < |w1| :: !IsSpace(w1[k])
    ensures forall k | 0 <= k < |w2| :: !IsSpace(w2[k])
    ensures forall k | 0 <= k < |w3| :: !IsSpace(w3[k])
    ensures forall k | 0 <= k < |w4| :: !IsSpace(w4[k])
  {
    forall k | 0 <= k < 6
      ensures (k < 5 ==> !IsSpace(w1[k])) && (k < 3 ==> !IsSpace(w2[k])) && !IsSpace(w3[k]) && (k < 2 ==> !IsSpace(w4[k]))
    {
    }
  }

  /** Two words joined by one whitespace character that normalisation keeps. */
  lemma GapKept(w1: string, w2: string, c: char)
    requires w1 != [] && w2 != [] && IsSpace(c)
    requires forall k | 0 <= k < |w1| :: !IsSpace(w1[k])
    requires forall k | 0 <= k < |w2| :: !IsSpace(w2[k])
    requires !Deletes(AllRules, Some(w1[|w1| - 1]), Some(w2[0]))
    ensures DeleteRuns(w1 + ([c] + w2), None, AllRules) == w1 + ([c] + w2)
  {
    var l1 := Some(w1[|w1| - 1]);
    assert w2 + [] == w2;
    KeepWord(w2, [], l1, AllRules);
    SingleSpace(c, w2, l1, AllRules);
    assert DeleteRuns([c] + w2, l1, AllRules) == [c] + w2;
    KeepWord(w1, [c] + w2, None, AllRules);
  }

  /** Four words joined by single spaces, of which only the first gap is deleted. */
  lemma FirstGapDeleted(w1: string, w2: string, w3: string, w4: string, c: char)
    requires w1 != [] && w2 != [] && w3 != [] && w4 != [] && IsSpace(c)
    requires forall k | 0 <= k < |w1| :: !IsSpace(w1[k])
    requires forall k | 0 <= k < |w2| :: !IsSpace(w2[k])
    requires forall k | 0 <= k < |w3| :: !IsSpace(w3[k])
    requires forall k | 0 <= k < |w4| :: !IsSpace(w4[k])
    requires Deletes(AllRules, Some(w1[|w1| - 1]), Some(w2[0]))
    requires !Deletes(AllRules, Some(w2[|w2| - 1]), Some(w3[0]))
    requires !Deletes(AllRules, Some(w3[|w3| - 1]), Some(w4[0]))
    ensures DeleteRuns(w1 + ([c] + (w2 + ([c] + (w3 + ([c] + w4))))), None, AllRules) ==
      w1 + (w2 + ([c] + (w3 + ([c] + w4))))
  {
    var l1, l2, l3 := Some(w1[|w1| - 1]), Some(w2[|w2| - 1]), Some(w3[|w3| - 1]);
    var tail4 := [c] + w4;
    var tail3 := [c] + (w3 + tail4);
    var tail2 := [c] + (w2 + tail3);
    assert w4 + [] == w4;
    KeepWord(w4, [], l3, AllRules);
    var d4 := DeleteRuns(tail4, l3, AllRules);
    SingleSpace(c, w4, l3, AllRules);
    assert d4 == tail4;
    KeepWord(w3, tail4, l2, AllRules);
    var d3 := DeleteRuns(tail3, l2, AllRules);
    SingleSpace(c, w3 + tail4, l2, AllRules);
    assert d3 == [c] + (w3 + tail4);
    KeepWord(w2, tail3, l1, AllRules);
    SingleSpace(c, w2 + tail3, l1, AllRules);
    assert DeleteRuns(tail2, l1, AllRules) == w2 + tail3;
    KeepWord(w1, tail2, None, AllRules);
  }

  lemma MinerSplit(s: string, t: string, w1: string, w2: string, w3: string, w4: string)
    requires s == "Miner HR: 123.45 MH" && t == "MinerHR: 123.45 MH"
    requires w1 == "Miner" && w2 == "HR:" && w3 == "123.45" && w4 == "MH"
    ensures s == w1 + ([' '] + (w2 + ([' '] + (w3 + ([' '] + w4)))))
    ensures t == w1 + (w2 + ([' '] + (w3 + ([' '] + w4))))
  {
  }

  /** Normalisation joins the letters of `Miner HR` and keeps the other two spaces. */
  lemma MinerNormalized(s: string)
    requires s == "Miner HR: 123.45 MH"
    ensures NormalizeLine(s) == "MinerHR: 123.45 MH"
  {
    var w1, w2, w3, w4 := "Miner", "HR:", "123.45", "MH";
    MinerWords(w1, w2, w3, w4);
    MinerSplit(s, "MinerHR: 123.45 MH", w1, w2, w3, w4);
    FirstGapDeleted(w1, w2, w3, w4, ' ');
    NormalizeLineSpec(s);
  }

  /** The labelled pattern at the start of the normalised `Miner HR` line. */
  lemma MinerHrExample(s: string)
    requires s == "MinerHR: 123.45 MH"
    ensures MatchAt(MinerHr, s, 0) == Some(Match(0, 18, ["123.45"]))
  {
    LabelExample(s);
    TokenExample(s);
    assert s[9..15] == "123.45";
  }

  lemma LabelExample(s: string)
    requires s == "MinerHR: 123.45 MH"
    ensures LitAt(s, 0, "miner", true) && RunEnd(Space, s, 5) == 5
    ensures LitAt(s, 5, "hr", true) && WordEnd(s, 7) && RunEnd(NonDigit, s, 7) == 9
  {
    assert s[0] == 'M' && s[1] == 'i' && s[2] == 'n' && s[3] == 'e' && s[4] == 'r';
    assert s[5] == 'H' && s[6] == 'R' && s[7] == ':' && s[8] == ' ';
    assert LitAt(s, 0, "miner", true) by {
      assert "miner"[1..] == "iner" && "iner"[1..] == "ner" && "ner"[1..] == "er" && "er"[1..] == "r" && "r"[1..] == "";
      assert LitAt(s, 4, "r", true);
      assert LitAt(s, 3, "er", true);
      assert LitAt(s, 2, "ner", true);
      assert LitAt(s, 1, "iner", true);
    }
    assert LitAt(s, 5, "hr", true) by {
      assert "hr"[1..] == "r" && "r"[1..] == "";
      assert LitAt(s, 6, "r", true);
    }
    assert RunEnd(NonDigit, s, 7) == 9 by {
      assert s[9] == '1';
      assert RunEnd(NonDigit, s, 9) == 9;
      assert RunEnd(NonDigit, s, 8) == 9;
    }
  }

  lemma TokenExample(s: string)
    requires s == "MinerHR: 123.45 MH"
    ensures TokenUnit(s, 7, 9, "mh") == Some((9, 15, 18))
  {
    assert s[9] == '1' && s[10] == '2' && s[11] == '3' && s[12] == '.' && s[13] == '4' && s[14] == '5';
    assert s[15] == ' ' && s[16] == 'M' && s[17] == 'H';
    assert RunEnd(NumChar, s, 15) == 15;
    assert RunEnd(NumChar, s, 14) == 15;
    assert RunEnd(NumChar, s, 13) == 15;
    assert RunEnd(NumChar, s, 12) == 15;
    assert RunEnd(NumChar, s, 11) == 15;
    assert RunEnd(NumChar, s, 10) == 15;
    assert RunEnd(NumChar, s, 9) == 15;
    assert RunEnd(Space, s, 15) == 16 by {
      assert RunEnd(Space, s, 16) == 16;
    }
    assert LitAt(s, 16, "mh", true) by {
      assert "mh"[1..] == "h" && "h"[1..] == "";
      assert LitAt(s, 17, "h", true);
    }
  }

  /** `float("123.45")` accepts the token. */
  lemma AcceptExample()
    ensures Accept("123.45") == Some("123.45")
  {
    var t := "123.45";
    NumberChars(t);
    OneDot(t);
    assert IsDigit(t[0]);
  }

  lemma NumberChars(t: string)
    requires t == "123.45"
    ensures forall k | 0 <= k < |t| :: InClass(NumChar, t[k])
  {
    forall k | 0 <= k < |t|
      ensures InClass(NumChar, t[k])
    {
      assert k < 6;
    }
  }

  lemma OneDot(t: string)
    requires t == "123.45"
    ensures Count(t, '.') == 1
  {
    assert '.' !in "45";
    assert ".45"[1..] == "45" && Count(".45", '.') == 1;
    assert "3.45"[1..] == ".45" && Count("3.45", '.') == 1;
    assert "23.45"[1..] == "3.45" && Count("23.45", '.') == 1;
    assert t[1..] == "23.45";
  }

  lemma HashrateReadingExample(s: string)
    requires s == "MinerHR: 123.45 MH"
    ensures HashrateReading(s) == Some("123.45")
  {
    MinerHrExample(s);
    assert Search(MinerHr, s, 0) == Some(Match(0, 18, ["123.45"]));
    AcceptExample();
  }

  /** `Miner HR: 123.45 MH` sets the hashrate to 123.45 once normalised to `MinerHR: 123.45 MH`. */
  lemma HashrateExample(line: string)
    requires line == "Miner HR: 123.45 MH"
    ensures Apply(Initial, line).mh == "123.45"
  {
    MinerNormalized(line);
    HashrateReadingExample("MinerHR: 123.45 MH");
  }

  /** The labelled pattern needs the word `miner`: a line without an `i` in any case never matches it. */
  lemma MinerNeedsI(s: string)
    requires forall k | 0 <= k < |s| :: FoldAscii(s[k]) != 'i'
    ensures NoMatch(MinerHr, s)
  {
    forall q | 0 <= q <= |s|
      ensures MatchAt(MinerHr, s, q).None?
    {
      assert !LitAt(s, q, "miner", true);
    }
  }

  /** The space in `10.0mh 55.20MH` sits between a letter and a digit: normalisation keeps it. */
  lemma FiguresNormalized(s: string)
    requires s == "10.0mh 55.20MH"
    ensures NormalizeLine(s) == s
  {
    var w1, w2 := "10.0mh", "55.20MH";
    FigureWords(s, w1, w2);
    GapKept(w1, w2, ' ');
    NormalizeLineSpec(s);
  }

  lemma FigureWords(s: string, w1: string, w2: string)
    requires s == "10.0mh 55.20MH" && w1 == "10.0mh" && w2 == "55.20MH"
    ensures s == w1 + ([' '] + w2)
    ensures forall k | 0 <= k < |w1| :: !IsSpace(w1[k])
    ensures forall k | 0 <= k < |w2| :: !IsSpace(w2[k])
  {
    forall k | 0 <= k < 7
      ensures (k < 6 ==> !IsSpace(w1[k])) && !IsSpace(w2[k])
    {
    }
  }

  lemma LastFigureReadingExample(s: string)
    requires s == "10.0mh 55.20MH"
    ensures HashrateReading(s) == Some("55.20")
  {
    var m := Match(7, 14, ["55.20"]);
    LastFigureFacts(s, m);
    HashrateLastFigure(s, m);
    FigureAccepted("55.20");
  }

  /** Without the label, the last figure wins: `10.0mh 55.20MH` sets the hashrate to 55.20. */
  lemma LastFigureExample(line: string)
    requires line == "10.0mh 55.20MH"
    ensures Apply(Initial, line).mh == "55.20"
  {
    FiguresNormalized(line);
    LastFigureReadingExample(line);
  }

  lemma FigureAccepted(t: string)
    requires t == "55.20"
    ensures Accept(t) == Some(t)
  {
    forall k | 0 <= k < |t|
      ensures InClass(NumChar, t[k])
    {
      assert k < 5;
    }
    assert '.' !in "20";
    assert ".20"[1..] == "20" && Count(".20", '.') == 1;
    assert "5.20"[1..] == ".20" && Count("5.20", '.') == 1;
    assert t[1..] == "5.20";
    assert IsDigit(t[0]);
  }

  lemma LastFigureFacts(s: string, m: Match)
    requires s == "10.0mh 55.20MH" && m == Match(7, 14, ["55.20"])
    ensures NoMatch(MinerHr, s) && IsLastFigure(s, m)
  {
    assert s[0] == '1' && s[1] == '0' && s[2] == '.' && s[3] == '0' && s[4] == 'm' && s[5] == 'h' && s[6] == ' ';
    assert s[7] == '5' && s[8] == '5' && s[9] == '.' && s[10] == '2' && s[11] == '0' && s[12] == 'M' && s[13] == 'H';
    MinerNeedsI(s);
    SecondFigure(s, m);
    assert MhFigureAt(s, 14).None?;
  }

  lemma SecondFigure(s: string, m: Match)
    requires s == "10.0mh 55.20MH" && m == Match(7, 14, ["55.20"])
    ensures MhFigureAt(s, 7) == Some(m)
  {
    assert s[7] == '5' && s[8] == '5' && s[9] == '.' && s[10] == '2' && s[11] == '0' && s[12] == 'M' && s[13] == 'H';
    assert RunEnd(NumChar, s, 12) == 12;
    assert RunEnd(NumChar, s, 11) == 12;
    assert RunEnd(NumChar, s, 10) == 12;
    assert RunEnd(NumChar, s, 9) == 12;
    assert RunEnd(NumChar, s, 8) == 12;
    assert RunEnd(NumChar, s, 7) == 12;
    assert RunEnd(Space, s, 12) == 12;
    assert LitAt(s, 12, "mh", true) by {
      assert "mh"[1..] == "h" && "h"[1..] == "";
      assert LitAt(s, 13, "h", true);
    }
    assert s[7..12] == "55.20";
  }

  /** `85C/92C` has no whitespace, so normalisation keeps it. */
  lemma TempNormalized(s: string)
    requires s == "85C/92C"
    ensures NormalizeLine(s) == s
  {
    forall k | 0 <= k < |s|
      ensures !IsSpace(s[k])
    {
      assert k < 7;
    }
    KeepWord(s, [], None, AllRules);
    assert s + [] == s;
    NormalizeLineSpec(s);
  }

  lemma TempReadingExample(s: string)
    requires s == "85C/92C"
    ensures TempReading(s) == Some(85)
  {
    assert s[0] == '8' && s[1] == '5' && s[2] == 'C' && s[3] == '/' && s[4] == '9' && s[5] == '2' && s[6] == 'C';
    assert RunEnd(Digit, s, 2) == 2;
    assert RunEnd(Digit, s, 0) == 2;
    assert RunEnd(Digit, s, 6) == 6;
    assert RunEnd(Digit, s, 4) == 6;
    assert s[0..2] == "85" && s[4..6] == "92";
    assert MatchAt(TempPair, s, 0) == Some(Match(0, 7, ["85", "92"]));
    assert DigitsValue("85") == 85 by {
      assert "85"[..1] == "8";
      assert "8"[..0] == "";
    }
  }

  /** The core temperature of `85C/92C` is 85. */
  lemma TempExample(line: string)
    requires line == "85C/92C"
    ensures Apply(Initial, line).tc == 85
  {
    TempNormalized(line);
    TempReadingExample(line);
  }

  /** `Block FOUND` contains the first phrase once lower-cased. */
  lemma BlockExample(line: string)
    requires line == "Block FOUND"
    ensures IsBlockFound(line)
  {
    var low := Lower(line);
    LowerExample(line);
    assert low[..|BlockPhrases[0]|] == BlockPhrases[0];
  }

  lemma LowerExample(line: string)
    requires line == "Block FOUND"
    ensures Lower(line) == "block found"
  {
    LowerChars(line, Lower(line));
  }

  lemma LowerChars(line: string, low: string)
    requires line == "Block FOUND" && low == Lower(line)
    ensures |low| == 11 && forall k | 0 <= k < 11 :: low[k] == "block found"[k]
  {
    forall k | 0 <= k < 11
      ensures low[k] == "block found"[k]
    {
      assert low[k] == LowerChar(line[k]);
    }
  }

  lemma PlainLetters(line: string)
    requires line == "Block FOUND"
    ensures forall k | 0 <= k < |line| :: !IsDigit(line[k]) && line[k] != '/'
  {
    forall k | 0 <= k < |line|
      ensures !IsDigit(line[k]) && line[k] != '/'
    {
      assert k < 11;
    }
  }

  lemma NoLineEnd(line: string)
    requires line == "Block FOUND"
    ensures TrimLineEnd(line) == line
  {
    assert line[|line| - 1] == 'D';
  }

  lemma BlockLineFacts(line: string)
    requires line == "Block FOUND"
    ensures TrimLineEnd(line) == line && IsBlockFound(line) && Apply(Initial, line) == Initial
  {
    BlockExample(line);
    NoLineEnd(line);
    PlainLetters(line);
    ApplyNoDigits(Initial, line);
  }

  /** A block announcement in any case raises one notification and leaves the telemetry as it was. */
  method BlockLineExample() returns (mon: Monitor)
    ensures mon.Current() == Initial
    ensures mon.events == [BlockEvent("Block FOUND", Initial)]
  {
    mon := new Monitor();
    BlockLineFacts("Block FOUND");
    mon.Ingest("Block FOUND");
  }
}
