/**
 * Character classes and string helpers with the meaning Python gives them.
 *
 * `\s` and `str.strip()` use Python's full whitespace set. `\d`, `\w` and the
 * case-insensitive matching of `re.I` are modelled on ASCII; `str.lower()` is
 * modelled on ASCII letters plus the KELVIN SIGN, the one other character whose
 * lower-case form is a lone ASCII letter, which is exact for every test of the
 * form "the lower-cased text contains / starts with an ASCII phrase".
 */
module Text {

  /** Python's `str.isspace()`, which is also what `\s` matches in a str pattern. */
  predicate IsSpace(c: char) {
    c == ' ' || ('\t' <= c <= '\r') || ('\U{1C}' <= c <= '\U{1F}') ||
    c == '\U{85}' || c == '\U{A0}' || c == '\U{1680}' || ('\U{2000}' <= c <= '\U{200A}') ||
    c == '\U{2028}' || c == '\U{2029}' || c == '\U{202F}' || c == '\U{205F}' || c == '\U{3000}'
  }

  /** `[A-Za-z]` */
  predicate IsLetter(c: char) {
    ('A' <= c <= 'Z') || ('a' <= c <= 'z')
  }

  /** `[0-9]`, and the model's `\d` */
  predicate IsDigit(c: char) {
    '0' <= c <= '9'
  }

  /** The model's `\w` */
  predicate IsWordChar(c: char) {
    IsLetter(c) || IsDigit(c) || c == '_'
  }

  function DigitValue(c: char): (d: nat)
    requires IsDigit(c)
    ensures d < 10
  {
    c as int - '0' as int
  }

  /** ASCII case folding, as `re.I` applies it to the letters of the patterns. */
  function FoldAscii(c: char): char {
    if 'A' <= c <= 'Z' then (c as int + 32) as char else c
  }

  /** One character of `str.lower()`. */
  function LowerChar(c: char): char {
    if c == '\U{212A}' then 'k' else FoldAscii(c)
  }

  function Lower(s: string): (r: string)
    ensures |r| == |s|
    ensures forall k | 0 <= k < |s| :: r[k] == LowerChar(s[k])
  {
    if s == [] then [] else [LowerChar(s[0])] + Lower(s[1..])
  }

  /** Number of leading whitespace characters of s. */
  function SpaceRun(s: string): (n: nat)
    ensures n <= |s|
    ensures n < |s| ==> !IsSpace(s[n])
  {
    if s != [] && IsSpace(s[0]) then 1 + SpaceRun(s[1..]) else 0
  }

  /** Every character of the leading run is whitespace. */
  lemma {:induction false} SpaceRunIn(s: string, k: nat)
    requires k < SpaceRun(s)
    ensures IsSpace(s[k])
  {
    if k > 0 {
      SpaceRunIn(s[1..], k - 1);
    }
  }

  /** The characters of s that are not whitespace, in order. */
  function NonSpace(s: string): string {
    if s == [] then []
    else if IsSpace(s[0]) then NonSpace(s[1..])
    else [s[0]] + NonSpace(s[1..])
  }

  lemma {:induction false} NonSpaceAppend(s: string, t: string)
    ensures NonSpace(s + t) == NonSpace(s) + NonSpace(t)
  {
    if s == [] {
      assert s + t == t;
    } else {
      assert (s + t)[1..] == s[1..] + t;
      NonSpaceAppend(s[1..], t);
    }
  }

  /** Python's `w in s` for strings. */
  predicate Contains(s: string, w: string)
    decreases |s|
  {
    |w| <= |s| && (s[..|w|] == w || Contains(s[1..], w))
  }

  /** w occurs in s starting at index i. */
  predicate OccursAt(s: string, w: string, i: int) {
    0 <= i <= |s| - |w| && s[i..i + |w|] == w
  }

  /** `Contains` holds exactly when w occurs at some index of s. */
  lemma {:induction false} ContainsIff(s: string, w: string)
    ensures Contains(s, w) <==> exists i :: OccursAt(s, w, i)
  {
    if |w| <= |s| {
      if s[..|w|] != w {
        ContainsIff(s[1..], w);
        if Contains(s[1..], w) {
          var i :| OccursAt(s[1..], w, i);
          assert s[1..][i..i + |w|] == s[i + 1..i + 1 + |w|];
          assert OccursAt(s, w, i + 1);
        }
        if exists i :: OccursAt(s, w, i) {
          var i :| OccursAt(s, w, i);
          assert i != 0;
          assert s[1..][i - 1..i - 1 + |w|] == s[i..i + |w|];
          assert OccursAt(s[1..], w, i - 1);
        }
      } else {
        assert OccursAt(s, w, 0);
      }
    }
  }

  predicate StartsWith(s: string, w: string) {
    |w| <= |s| && s[..|w|] == w
  }

  /** Python's `str.lstrip()` */
  function StripStart(s: string): (r: string)
    ensures r == s[SpaceRun(s)..]
  {
    if s != [] && IsSpace(s[0]) then StripStart(s[1..]) else s
  }

  /** Python's `str.rstrip()` */
  function StripEnd(s: string): (r: string)
    ensures |r| <= |s| && r == s[..|r|]
    ensures r == [] || !IsSpace(r[|r| - 1])
    ensures forall k | |r| <= k < |s| :: IsSpace(s[k])
  {
    if s != [] && IsSpace(s[|s| - 1]) then StripEnd(s[..|s| - 1]) else s
  }

  /** Python's `str.strip()` */
  function Strip(s: string): string {
    StripEnd(StripStart(s))
  }

  /** `s.split(c, 1)[1]`: the text after the first occurrence of c. */
  function AfterFirst(s: string, c: char): (r: string)
    requires c in s
    ensures exists k | 0 <= k < |s| :: s[k] == c && c !in s[..k] && r == s[k + 1..]
  {
    if s[0] == c then s[1..] else (assert s[1..][..0] == []; AfterFirst(s[1..], c))
  }

  /** The decimal value of a string of ASCII digits. */
  function DigitsValue(t: string): nat
    requires forall k | 0 <= k < |t| :: IsDigit(t[k])
  {
    if t == [] then 0 else 10 * DigitsValue(t[..|t| - 1]) + DigitValue(t[|t| - 1])
  }
}
