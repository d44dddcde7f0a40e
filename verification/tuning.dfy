/**
 * GPU tuning through OverdriveNTool (ODNT): listing the profiles of the
 * `OverdriveNTool.ini` that sits next to the tool, applying one profile to a
 * GPU, and the gate that decides whether and which profile to apply when
 * mining starts or stops.
 *
 * File contents, whether the tool exists, administrator rights, the user's
 * answer to the elevation prompt and what running the tool returns are inputs.
 */
module Tuning {
  import opened Wrappers
  import opened Text

  // ------------------------------------------------------------ ini listing

  /** A line is a profile entry when, stripped and lower-cased, it starts with `name=`. */
  predicate IsNameLine(t: string) {
    StartsWith(Lower(t), "name=")
  }

  /** In a name line the first '=' is the one of `name=`, so the value starts at index 5. */
  lemma NameLineSplit(t: string)
    requires IsNameLine(t)
    ensures '=' in t && AfterFirst(t, '=') == t[5..]
  {
    assert Lower(t)[..5] == "name=";
    forall k | 0 <= k < 5
      ensures LowerChar(t[k]) == "name="[k]
    {
      assert Lower(t)[k] == Lower(t)[..5][k];
    }
    assert t[4] == '=';
    assert t[..4] == [t[0], t[1], t[2], t[3]];
  }

  /** The profile name a line of the ini declares: the stripped text after the first '='. */
  function ProfileEntry(line: string): Option<string> {
    var t := Strip(line);
    if IsNameLine(t) then
      NameLineSplit(t);
      Some(Strip(AfterFirst(t, '=')))
    else None
  }

  /** Which lines declare a profile, and the name each declares, without reference to `split`. */
  lemma ProfileEntryValue(line: string, name: string)
    ensures ProfileEntry(line) == Some(name) <==>
      IsNameLine(Strip(line)) && name == Strip(Strip(line)[5..])
  {
    if IsNameLine(Strip(line)) {
      NameLineSplit(Strip(line));
    }
  }

  /** The name an entry holds, as a listing of zero or one names. */
  function Names(e: Option<string>): seq<string> {
    match e
    case Some(name) => [name]
    case None => []
  }

  /** The names f finds in xs, in order. */
  function Listing<A>(f: A -> Option<string>, xs: seq<A>): seq<string> {
    if xs == [] then []
    else Listing(f, xs[..|xs| - 1]) + Names(f(xs[|xs| - 1]))
  }

  lemma {:induction false} ListingAppend<A>(f: A -> Option<string>, a: seq<A>, b: seq<A>)
    ensures Listing(f, a + b) == Listing(f, a) + Listing(f, b)
    decreases |b|
  {
    if b == [] {
      assert a + b == a;
    } else {
      var c, init, last := a + b, b[..|b| - 1], b[|b| - 1];
      assert c[..|c| - 1] == a + init;
      assert c[|c| - 1] == last;
      ListingAppend(f, a, init);
      assert Listing(f, c) == Listing(f, a + init) + Names(f(last));
      assert Listing(f, b) == Listing(f, init) + Names(f(last));
    }
  }

  /** Appending the names of one more element to an accumulated listing. */
  lemma ListingStep<A>(f: A -> Option<string>, xs: seq<A>, k: nat, acc0: seq<string>, acc: seq<string>)
    requires k < |xs| && acc == acc0 + Listing(f, xs[..k])
    ensures acc0 + Listing(f, xs[..k + 1]) == acc + Names(f(xs[k]))
  {
    assert xs[..k + 1][..k] == xs[..k];
  }

  lemma {:induction false} ListingMembers<A>(f: A -> Option<string>, xs: seq<A>, name: string)
    ensures name in Listing(f, xs) <==> exists k | 0 <= k < |xs| :: f(xs[k]) == Some(name)
  {
    if xs != [] {
      var n := |xs| - 1;
      var init := xs[..n];
      ListingMembers(f, init, name);
      if exists k | 0 <= k < n :: f(init[k]) == Some(name) {
        var k :| 0 <= k < n && f(init[k]) == Some(name);
        assert xs[k] == init[k];
      }
      if exists k | 0 <= k < |xs| :: f(xs[k]) == Some(name) {
        var k :| 0 <= k < |xs| && f(xs[k]) == Some(name);
        if k < n {
          assert init[k] == xs[k];
        }
      }
    }
  }

  /** The names the lines declare, in file order. */
  function ProfileNames(lines: seq<string>): seq<string> {
    Listing(ProfileEntry, lines)
  }

  /** The listing of a file is the listing of its first part followed by that of the rest. */
  lemma ProfileNamesAppend(a: seq<string>, b: seq<string>)
    ensures ProfileNames(a + b) == ProfileNames(a) + ProfileNames(b)
  {
    ListingAppend(ProfileEntry, a, b);
  }

  /** A name is listed exactly when some line declares it. */
  lemma ProfileNamesMembers(lines: seq<string>, name: string)
    ensures name in ProfileNames(lines) <==> exists k | 0 <= k < |lines| :: ProfileEntry(lines[k]) == Some(name)
  {
    ListingMembers(ProfileEntry, lines, name);
  }

  /** The lines read in one encoding, and whether reading raised before the end of the file. */
  datatype Decoded = Decoded(lines: seq<string>, raised: bool)

  /** One line of the loop: an entry line appends its name, any other line nothing. */
  lemma ScanStep(names0: seq<string>, lines: seq<string>, k: nat, names: seq<string>, t: string)
    requires k < |lines| && t == Strip(lines[k])
    requires names == names0 + ProfileNames(lines[..k])
    ensures IsNameLine(t) ==> '=' in t && names0 + ProfileNames(lines[..k + 1]) == names + [Strip(AfterFirst(t, '='))]
    ensures !IsNameLine(t) ==> names0 + ProfileNames(lines[..k + 1]) == names
  {
    ListingStep(ProfileEntry, lines, k, names0, names);
    EntryOf(lines[k], t);
  }

  lemma EntryOf(line: string, t: string)
    requires t == Strip(line)
    ensures IsNameLine(t) ==> '=' in t && ProfileEntry(line) == Some(Strip(AfterFirst(t, '=')))
    ensures !IsNameLine(t) ==> ProfileEntry(line) == None
  {
    if IsNameLine(t) {
      NameLineSplit(t);
    }
  }

  /** The line loop: append the name of every entry line to names0, in order. */
  method ScanLines(names0: seq<string>, lines: seq<string>) returns (names: seq<string>)
    ensures names == names0 + ProfileNames(lines)
  {
    names := names0;
    var k := 0;
    while k < |lines|
      invariant 0 <= k <= |lines|
      invariant names == names0 + ProfileNames(lines[..k])
    {
      var t := Strip(lines[k]);
      ScanStep(names0, lines, k, names, t);
      if IsNameLine(t) {
        names := names + [Strip(AfterFirst(t, '='))];
      }
      k := k + 1;
    }
    assert lines[..k] == lines;
  }

  /**
   * `_odnt_ini_profiles`: nothing when the ini is missing; otherwise the names
   * read as UTF-16, and when that gives none or raises, followed by those read
   * as UTF-8 (a read that raises keeps what it appended).
   */
  method OdntIniProfiles(ini: Option<(Decoded, Decoded)>) returns (names: seq<string>)
    ensures ini.None? ==> names == []
    ensures ini.Some? ==> var (utf16, utf8) := ini.value;
      names == if !utf16.raised && ProfileNames(utf16.lines) != [] then ProfileNames(utf16.lines)
               else ProfileNames(utf16.lines) + ProfileNames(utf8.lines)
  {
    names := [];
    if ini.None? {
      return;
    }
    var (utf16, utf8) := ini.value;
    names := ScanLines(names, utf16.lines);
    assert names == ProfileNames(utf16.lines);
    if !utf16.raised && names != [] {
      return;
    }
    names := ScanLines(names, utf8.lines);
  }

  // ------------------------------------------------------------ decimal text

  function DigitChar(d: nat): (c: char)
    requires d < 10
    ensures IsDigit(c) && DigitValue(c) == d
  {
    ('0' as int + d) as char
  }

  /** `str(n)` for a natural number. */
  function NatToDecimal(n: nat): (r: string)
    ensures |r| > 0 && forall k | 0 <= k < |r| :: IsDigit(r[k])
    decreases n
  {
    if n < 10 then [DigitChar(n)] else NatToDecimal(n / 10) + [DigitChar(n % 10)]
  }

  /** `f"{n}"` for an integer: a '-' before the digits of a negative one. */
  function IntToDecimal(n: int): string {
    if n < 0 then "-" + NatToDecimal(-n) else NatToDecimal(n)
  }

  /** The value of an optionally signed decimal string. */
  function DecimalValue(s: string): int
    requires |s| > 0 && forall k | 1 <= k < |s| :: IsDigit(s[k])
    requires s[0] == '-' || IsDigit(s[0])
  {
    if s[0] == '-' then -(DigitsValue(s[1..]) as int) else DigitsValue(s)
  }

  lemma {:induction false} NatToDecimalValue(n: nat)
    ensures DigitsValue(NatToDecimal(n)) == n
    decreases n
  {
    if n >= 10 {
      var r := NatToDecimal(n);
      assert r[..|r| - 1] == NatToDecimal(n / 10);
      NatToDecimalValue(n / 10);
    }
  }

  /** The GPU index written into the tool's arguments reads back as the same index. */
  lemma IntToDecimalRoundTrip(n: int)
    ensures var s := IntToDecimal(n);
      |s| > 0 && (s[0] == '-' || IsDigit(s[0])) && (forall k | 1 <= k < |s| :: IsDigit(s[k])) &&
      DecimalValue(s) == n
  {
    var s := IntToDecimal(n);
    if n < 0 {
      assert s[1..] == NatToDecimal(-n);
      NatToDecimalValue(-n);
    } else {
      NatToDecimalValue(n);
    }
  }

  // ------------------------------------------------------------------ apply

  /** What running the tool gave: its exit code and output, or the error that prevented it. */
  datatype RunResult = Exited(code: int, stdout: string, stderr: string) | Raised(error: string)

  /** Whether applying succeeded, the message to show, and the command run, if one was. */
  datatype ApplyResult = ApplyResult(ok: bool, msg: string, command: Option<seq<string>>)

  /** The tool's command line: reset GPU gpu, then apply profile to it. */
  function OdntCommand(exe: string, profile: string, gpu: int): seq<string> {
    [exe, "-r" + IntToDecimal(gpu), "-p" + IntToDecimal(gpu) + profile]
  }

  /** What `_apply_with_odnt` returns for one profile and GPU, given the listed profiles. */
  function ApplyWithOdnt(exe: string, exeExists: bool, profiles: seq<string>, profile: string, gpu: int,
                         run: RunResult): (r: ApplyResult)
    ensures !exeExists ==> r == ApplyResult(false, "ODNT not found: " + exe, None)
    ensures exeExists && profiles != [] && profile !in profiles ==>
      r == ApplyResult(false, "Profile '" + profile + "' not found in OverdriveNTool.ini next to ODNT.", None)
    ensures r.command.Some? <==> exeExists && (profiles == [] || profile in profiles)
    ensures r.command.Some? ==> r.command.value == OdntCommand(exe, profile, gpu)
    ensures r.command.Some? ==> (r.ok <==> run.Exited? && run.code == 0)
  {
    if !exeExists then ApplyResult(false, "ODNT not found: " + exe, None)
    else if profiles != [] && profile !in profiles then
      ApplyResult(false, "Profile '" + profile + "' not found in OverdriveNTool.ini next to ODNT.", None)
    else
      var command := OdntCommand(exe, profile, gpu);
      match run
      case Exited(code, out, err) => ApplyResult(code == 0, Strip(out + err), Some(command))
      case Raised(error) => ApplyResult(false, error, Some(command))
  }

  /** The profile and GPU can be read back from the command's arguments. */
  lemma OdntCommandArgs(exe: string, profile: string, gpu: int)
    ensures var cmd := OdntCommand(exe, profile, gpu);
      var digits := IntToDecimal(gpu);
      |cmd| == 3 && cmd[0] == exe &&
      cmd[1][..2] == "-r" && cmd[1][2..] == digits &&
      cmd[2][..2] == "-p" && cmd[2][2..2 + |digits|] == digits && cmd[2][2 + |digits|..] == profile &&
      DecimalValue(digits) == gpu
  {
    IntToDecimalRoundTrip(gpu);
  }

  // ------------------------------------------------------------------- gate

  /** The ODNT setup: the tool's path, whether it exists, the listed profiles and the GPU index. */
  datatype Odnt = Odnt(exe: string, exeExists: bool, profiles: seq<string>, gpu: int)

  datatype TuneOutcome =
    | Skipped                 // tuning mode is not `odnt`
    | Relaunch                // no admin rights: restart elevated (the process exits)
    | Declined                // no admin rights and the user declined the restart
    | Applied(profile: string, result: ApplyResult, warned: bool)

  /**
   * `apply_tune(phase)`: `answer` is the user's reply to the elevation prompt,
   * None when showing the prompt raised.
   */
  function ApplyTune(mode: string, admin: bool, answer: Option<bool>, phase: string,
                     kaspaProfile: string, defaultProfile: string, odnt: Odnt, run: RunResult): (t: TuneOutcome)
    ensures t == Skipped <==> Lower(mode) != "odnt"
    ensures t.Applied? <==> Lower(mode) == "odnt" && admin
    ensures t == Declined <==> Lower(mode) == "odnt" && !admin && answer == Some(false)
    ensures t.Applied? ==> t.profile == (if phase == "kaspa" then kaspaProfile else defaultProfile)
    ensures t.Applied? ==> t.result == ApplyWithOdnt(odnt.exe, odnt.exeExists, odnt.profiles, t.profile, odnt.gpu, run)
    ensures t.Applied? ==> (t.warned <==> !t.result.ok && t.result.msg != [])
  {
    if Lower(mode) != "odnt" then Skipped
    else if !admin then
      (if answer == Some(false) then Declined else Relaunch)
    else
      var profile := if phase == "kaspa" then kaspaProfile else defaultProfile;
      var result := ApplyWithOdnt(odnt.exe, odnt.exeExists, odnt.profiles, profile, odnt.gpu, run);
      Applied(profile, result, !result.ok && result.msg != [])
  }
}
