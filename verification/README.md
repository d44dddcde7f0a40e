# KaspaControl core in Dafny

KaspaControl is a Windows tray controller for a GPU miner. It starts and
stops the miner and follows the miner's console output. From that output it
keeps a telemetry snapshot (`current`), raises a notification when a block is
found, applies an OverdriveNTool (ODNT) tuning profile when mining starts or
stops, and fills in its JSON configuration with default values.

This project models the logic behind those features and proves what it does:

- `text.dfy` (module `Text`): the Python string operations the code relies
  on. These are `\s` and `str.strip` whitespace, ASCII letters and digits,
  `str.lower`, `in`, `startswith` and `split('=', 1)`.
- `normalize.dfy` (module `Normalize`): `_despace_letters` and
  `_normalize_line`, the three whitespace-deleting rewrites. Each rewrite is
  written as the left-to-right scan `re.sub` performs. Each scan is proved
  equal to one specification, `DeleteRuns`. `DeleteRuns` deletes a
  whitespace run exactly when its nearest non-whitespace neighbours satisfy
  a rule. Idempotence and "only whitespace is deleted" follow from that.
- `patterns.dfy` (module `Patterns`): the regular expressions of
  `parse_line`. Each one is a function giving the match Python's
  backtracking engine finds at one index. On top of these sit `re.search`
  (the leftmost match) and `re.findall` (non-overlapping matches, left to
  right).
- `telemetry.dfy` (module `Telemetry`): the snapshot and the per-field
  pattern chains of `parse_line`. It also holds the `Monitor` class. That
  class keeps the snapshot and the raised notifications as fields, and its
  methods are `parse_line` and one pass of the reader loop.
- `events.dfy` (module `Events`): the block-found test on a raw line.
- `tuning.dfy` (module `Tuning`): the ini profile listing, the apply step
  with its checks and command line, and the `apply_tune` gate.
- `config.dfy` (module `Config`): the merge loop of `load_config`.
- `examples.dfy` (module `Examples`): concrete lines worked through the model.
- `wrappers.dfy` (module `Wrappers`): `Option`.

Hashrate and power readings are kept as the decimal text `float()` accepted.
Share counters and the temperature are natural numbers.

Behaviour of the code the model keeps:

- Nothing resets the telemetry when the miner starts.
- An ini entry line is matched as `name=` in any case. Its value is stripped
  of surrounding whitespace.
- A share triple made only of dashes (`-/-/-`) sets all three counters to
  zero. So a line without digits can still change the snapshot.
- With tuning disabled, `apply_tune` simply returns without producing a
  result.

## Model

| member | source | states |
|---|---|---|
| Text.ContainsIff | KaspaControl.py:224 | `w in s` holds exactly when w occurs at some index of s |
| Text.Lower | KaspaControl.py:223 | `str.lower()` keeps the length and lower-cases each character: ASCII letters, and the Kelvin sign to `k` |
| Text.StripEnd | KaspaControl.py:242 | `rstrip()` leaves a prefix that does not end in whitespace, and only whitespace was removed |
| Text.AfterFirst | KaspaControl.py:244 | `split(c, 1)[1]` is the text after the first occurrence of c |
| Normalize.DespaceLettersSpec | KaspaControl.py:88-90 | the letter-chunk substitution deletes exactly the whitespace runs that have an ASCII letter on both sides |
| Normalize.ChainMaximal | KaspaControl.py:88 | a letter chunk `(?:[A-Za-z]\s+)+[A-Za-z]` extends as far as letters separated by whitespace go |
| Normalize.JoinDigitsSpec | KaspaControl.py:94 | `(?<=\d)\s+(?=[\d.])` deletes exactly the runs between a digit and a following digit or '.' |
| Normalize.JoinSlashesSpec | KaspaControl.py:95 | `\s*/\s*` deletes exactly the runs that touch a '/' |
| Normalize.DeleteRunsCompose | KaspaControl.py:92-96 | two rewrites in a row delete what the union of their rules deletes |
| Normalize.NormalizeLineSpec | KaspaControl.py:92-96 | `_normalize_line` deletes a whitespace run exactly when one of the three rules applies to its neighbours |
| Normalize.NormalizeLineIdempotent | KaspaControl.py:92-96 | normalising a normalised line changes nothing |
| Normalize.NormalizeLineOnlyDeletesSpace | KaspaControl.py:92-96 | only whitespace is deleted: the non-whitespace characters stay, in order, and the result is a subsequence of the line |
| Normalize.NormalizeLineChars | KaspaControl.py:92-96 | every character of the normalised line is a character of the raw line |
| Patterns.RunEnd | KaspaControl.py:175 | a greedy character-class repetition stops at the end of the line or at the first character outside the class |
| Patterns.RunIn | KaspaControl.py:175 | every character a greedy repetition consumes belongs to its class |
| Patterns.MinerHrAt | KaspaControl.py:170 | a labelled hashrate match at p starts at p, stays in the line, and captures a non-empty `[\d.]` run |
| Patterns.MhFigureAt | KaspaControl.py:175 | a `<tok> mh` figure at p starts at p and captures a non-empty `[\d.]` run |
| Patterns.AriLabelAt | KaspaControl.py:181 | an `A/R/I` match at p captures three non-empty `[0-9-]` runs |
| Patterns.AriTableAt | KaspaControl.py:183 | a pipe-table share match at p captures three non-empty `[0-9-]` runs |
| Patterns.PwrLabelAt | KaspaControl.py:191 | a labelled power match at p captures a non-empty `[\d.]` run |
| Patterns.PwrTableAt | KaspaControl.py:193 | a pipe-table power match at p captures a non-empty `[\d.]` run |
| Patterns.BareWattAt | KaspaControl.py:195 | a bare `<tok> w` match at p captures a non-empty `[\d.]` run |
| Patterns.TempPairAt | KaspaControl.py:201 | a `<digits>C/<digits>C` match at p captures two non-empty digit runs |
| Patterns.SearchLeftmost | KaspaControl.py:170 | `re.search` returns a match at the leftmost index that matches, and nothing only when no index matches |
| Patterns.SearchFinds | KaspaControl.py:181 | `re.search` returns the leftmost match whenever there is one |
| Patterns.LeftmostUnique | KaspaControl.py:191 | a pattern has at most one leftmost match in a line |
| Patterns.FindMhEmpty | KaspaControl.py:175-176 | `re.findall` returns an empty list only when no figure starts anywhere |
| Patterns.FindMhLast | KaspaControl.py:175-177 | the last element of `re.findall` is a figure at the start of a number, and no figure starts after it |
| Patterns.LastFigureUnique | KaspaControl.py:177 | a line has at most one such last figure |
| Telemetry.ParseInt | KaspaControl.py:186 | on the `[0-9-]+` tokens that reach it, `int()` succeeds exactly on non-empty strings of ASCII digits of at most 4300 characters, CPython's default digit cap |
| Telemetry.DashToZero | KaspaControl.py:186 | `replace('-', '0')` turns each dash into '0' and keeps every other character |
| Telemetry.ToIntConverts | KaspaControl.py:185-187 | on every captured share token of at most 4300 characters, `int()` succeeds, so the fallback to 0 is not taken |
| Telemetry.ToIntTooLong | KaspaControl.py:185-187 | a token longer than the digit cap makes `int()` raise, and `_to_int` returns 0 |
| Telemetry.DashOnlyIsZero | KaspaControl.py:186 | a token made only of dashes reads as 0 |
| Telemetry.ToIntDigits | KaspaControl.py:186 | a token without dashes, within the digit cap, reads as its decimal value |
| Telemetry.HashrateLabelled | KaspaControl.py:170-173 | if the labelled pattern matches, its token alone decides `mh`; a token that does not convert leaves `mh` unchanged and the fallback is not tried |
| Telemetry.HashrateLastFigure | KaspaControl.py:174-178 | without a labelled match, `mh` comes from the last `<tok> mh` figure of the line |
| Telemetry.HashrateMiss | KaspaControl.py:170-178 | with neither pattern matching, `mh` is not updated |
| Telemetry.SharesMatch | KaspaControl.py:181-183 | a share match, labelled or from the table, captures three non-empty `[0-9-]` tokens |
| Telemetry.PowerMatch | KaspaControl.py:191-195 | a power match from any of the three patterns captures one non-empty `[\d.]` token |
| Telemetry.SharesLabelled | KaspaControl.py:181-188 | the labelled `A/R/I` triple sets all three counters from its three tokens |
| Telemetry.SharesTable | KaspaControl.py:182-188 | only when the labelled triple is absent does the pipe-table row set the counters |
| Telemetry.SharesMiss | KaspaControl.py:181-188 | with neither share pattern matching, no counter changes |
| Telemetry.PowerLabelled | KaspaControl.py:191-198 | a labelled power match alone decides `pw`, even when its token does not convert |
| Telemetry.PowerTable | KaspaControl.py:192-198 | without a labelled match, the table layout decides |
| Telemetry.PowerBare | KaspaControl.py:194-198 | the bare `<tok> w` figure is read only when the line contains `C/` and the other two patterns miss |
| Telemetry.PowerMiss | KaspaControl.py:191-198 | with no pattern of the chain matching, `pw` is not updated |
| Telemetry.TempLeftmost | KaspaControl.py:201-204 | `tc` is the first digit group of the leftmost `<digits>C/<digits>C`; the second value is ignored |
| Telemetry.TempMiss | KaspaControl.py:201-204 | with no such pair, `tc` is not updated |
| Telemetry.ApplyUntouched | KaspaControl.py:166-204 | a line on which no pattern matches leaves the snapshot as it was |
| Telemetry.NoDigitRejected | KaspaControl.py:172 | a `[\d.]+` token without a digit never converts |
| Telemetry.HashrateNoDigits | KaspaControl.py:170-178 | a line without digits never updates `mh` |
| Telemetry.SharesNoDigits | KaspaControl.py:181-188 | a line without digits keeps the counters or sets all three to zero |
| Telemetry.PowerNoDigits | KaspaControl.py:191-198 | a line without digits never updates `pw` |
| Telemetry.TempNoDigits | KaspaControl.py:201-204 | a line without digits never updates `tc` |
| Telemetry.ApplyNoDigits | KaspaControl.py:166-204 | a raw line without digits changes neither hashrate, power nor temperature, and sets the counters to zero or leaves them; one without a '/' as well leaves the snapshot as it was |
| Telemetry.SharesNeedSlash | KaspaControl.py:181-188 | both share patterns need a '/', so a line without one never changes the counters |
| Telemetry.TrimLineEnd | KaspaControl.py:215 | `rstrip("\r\n")` removes only trailing carriage returns and newlines, and all of them |
| Telemetry.Monitor.constructor | KaspaControl.py:79 | the snapshot starts at `mh` 0.0, counters 0, `pw` 0.0, `tc` 0, with no notifications |
| Telemetry.Monitor.ParseLine | KaspaControl.py:166-204 | `parse_line` leaves the snapshot that `Apply` gives for the old snapshot and the line |
| Telemetry.Monitor.UpdateHashrate | KaspaControl.py:170-178 | only `mh` changes, to the hashrate reading when there is one |
| Telemetry.Monitor.UpdateShares | KaspaControl.py:181-188 | the three counters change together, or none does |
| Telemetry.Monitor.UpdatePower | KaspaControl.py:191-198 | only `pw` changes, to the power reading when there is one |
| Telemetry.Monitor.UpdateTemp | KaspaControl.py:201-204 | only `tc` changes, to the temperature reading when there is one |
| Telemetry.Monitor.Ingest | KaspaControl.py:215-227 | a block-found line raises one notification carrying the snapshot from before the line is parsed; the snapshot changes only by parsing |
| Telemetry.Monitor.ReadAll | KaspaControl.py:208-227 | the reader loop leaves the snapshot of reading the lines in order, and raises one notification per block-found line |
| Events.BlockFoundIff | KaspaControl.py:223-224 | a line is a block-found event exactly when one of the three phrases occurs in its lower-case form |
| Events.BlockFoundIgnoresCase | KaspaControl.py:223-224 | two lines that lower-case alike are classified alike |
| Tuning.NameLineSplit | KaspaControl.py:243-244 | in an entry line the first '=' is that of `name=` |
| Tuning.ProfileEntryValue | KaspaControl.py:242-244 | a line declares a profile exactly when, stripped, it starts with `name=` in any case; the name is the stripped text after those five characters |
| Tuning.ProfileNamesAppend | KaspaControl.py:241-244 | the names of a file are those of its first part followed by those of the rest, so file order is kept |
| Tuning.ProfileNamesMembers | KaspaControl.py:241-244 | a name is listed exactly when some line declares it |
| Tuning.ScanStep | KaspaControl.py:241-244 | one pass of the line loop appends the stripped text after `name=` for an entry line and nothing for any other line |
| Tuning.ScanLines | KaspaControl.py:241-244 | the line loop appends the declared names, in order |
| Tuning.OdntIniProfiles | KaspaControl.py:232-250 | no ini gives no names; the UTF-8 read is used only when the UTF-16 read gave no names or raised, and then adds to what was read |
| Tuning.NatToDecimal | KaspaControl.py:260 | decimal formatting gives a non-empty digit string |
| Tuning.IntToDecimalRoundTrip | KaspaControl.py:260 | the GPU index written into the arguments reads back as the same integer |
| Tuning.ApplyWithOdnt | KaspaControl.py:252-267 | a missing tool fails before the list is consulted; a profile is rejected only when the list is non-empty and lacks it; otherwise the command runs, and success means exit code 0 |
| Tuning.OdntCommandArgs | KaspaControl.py:260 | the command is the tool, `-r<gpu>`, and `-p<gpu><profile>`, from which profile and GPU read back |
| Tuning.ApplyTune | KaspaControl.py:269-285 | nothing happens unless the mode is `odnt`; without admin rights the tool never runs; the kaspa profile is chosen exactly for phase `kaspa`; a warning is shown exactly when the apply failed with a message |
| Examples.AriNormalized | KaspaControl.py:92-96 | `A/R/I: 12/-/3` is its own normal form: the space between ':' and a digit is kept |
| Examples.SharesExample | KaspaControl.py:166-188 | `parse_line` on `A/R/I: 12/-/3` sets 12 accepted, 0 rejected and 3 invalid shares |
| Examples.MinerNormalized | KaspaControl.py:88-96 | normalisation turns `Miner HR: 123.45 MH` into `MinerHR: 123.45 MH`: the letter gap goes, the other two spaces stay |
| Examples.HashrateExample | KaspaControl.py:166-173 | `parse_line` on `Miner HR: 123.45 MH` sets the hashrate to 123.45 |
| Examples.AcceptExample | KaspaControl.py:172 | `float()` accepts the token `123.45` |
| Examples.MinerNeedsI | KaspaControl.py:170 | a line with no `i` in either case never matches the labelled hashrate pattern |
| Examples.LastFigureExample | KaspaControl.py:166-178 | `parse_line` on `10.0mh 55.20MH`, which has no label, sets the hashrate to the last figure, 55.20 |
| Examples.TempExample | KaspaControl.py:200-204 | `parse_line` on `85C/92C` sets the temperature to the core figure, 85 |
| Examples.BlockExample | KaspaControl.py:223-224 | `Block FOUND` is a block-found line, whatever its case |
| Examples.BlockLineExample | KaspaControl.py:215-227 | reading `Block FOUND` raises one notification and leaves the initial snapshot as it was |
| Config.MergeDefaults | KaspaControl.py:45-49 | every default key is present afterwards; stored keys keep their values; missing keys get their defaults; `changed` is set exactly when a key was missing |
| Config.LoadConfig | KaspaControl.py:39-52 | a missing file gives and saves the defaults; otherwise the result is the defaults overridden by the file, saved exactly when a key was added |

## Left out

- Tk windows, the settings dialog, the tray icon, the log viewer and the web GUI launcher: these are user interface only.
- Process spawn, liveness polling, tree kill, `start_miner`, `stop_miner` and the delayed re-apply: these are operating-system calls and timers. `start_miner` never resets the telemetry, so the model has no reset either.
- Threads, sleeps, `shutdown_evt` and the unlocked sharing of `current`. The reader loop is modelled as a sequential loop over a finite list of lines.
- Decoding the miner's output bytes and appending to the log file: only the decoded line is modelled.
- Administrator detection, elevation and `wmic` probing: these are foreign calls. Admin rights and the user's answer become inputs.
- The sound and popup of a notification. A notification is recorded as the line and the snapshot at that moment.
- File input and output. This covers reading and writing the config, the ini file with its encodings, and the log tail. File contents and existence are inputs. The JSON document is assumed to be an object, and JSON parse errors are not modelled.
- The working directory of the tool's run, and `_abs_from_base` path resolution: these are Windows path semantics.
- Telemetry.Apply: keeps `mh` and `pw` as the accepted decimal text rather than the `float` value, since floating point is not modelled. `tc` is the exact integer, where Python keeps a `float`.
- Telemetry.ParseInt: models the default digit cap of 4300 that CPython 3.11 and later (and the 3.7 to 3.10 security releases) put on `int()`. A cap changed through `PYTHONINTMAXSTRDIGITS` or `sys.set_int_max_str_digits`, and older interpreters without a cap, are not modelled. Signs, surrounding whitespace and `_` separators, which `int()` also accepts, are not modelled either, because only `[0-9-]+` tokens reach it.
- Patterns.MatchAt: `\d`, `\w` and `re.I` are modelled on ASCII only. Python's Unicode digits and word characters, and the case folds of `İ`, `ı`, `ſ` and the Kelvin sign under `re.I`, are not modelled.
- Normalize.DigitGapAt: the `\d` of the lookbehind and lookahead in the digit-joining pass, and so the digit case of Normalize.Deletes, is ASCII only. Python also treats other Unicode decimal digits as `\d`, so it deletes the space in `٣ ٤` where the model keeps it.
- Text.Lower: maps only ASCII letters and the Kelvin sign. No other character's lower-case form contains a letter of the searched phrases or of `name=` and `odnt`, so every test the code makes is exact.
