/** Python string operations the bot relies on (`str.strip`, `str.split`,
    `str.splitlines`, `str.isdigit`, `int`, `str`), written out over
    `seq<char>`. Digits are the ASCII digits; whitespace is the set of
    characters for which Python's `str.isspace` holds. */
module Text {
  import opened Wrappers

  /** Python's `str.isspace` for one character. */
  predicate IsSpace(c: char) {
    c == '\t' || c == '\n' || c == '\U{000B}' || c == '\U{000C}' || c == '\r'
    || ('\U{001C}' <= c <= '\U{001F}') || c == ' ' || c == '\U{0085}' || c == '\U{00A0}'
    || c == '\U{1680}' || ('\U{2000}' <= c <= '\U{200A}') || c == '\U{2028}' || c == '\U{2029}'
    || c == '\U{202F}' || c == '\U{205F}' || c == '\U{3000}'
  }

  /** The characters at which Python's `str.splitlines` breaks a line. */
  predicate IsLineBreak(c: char) {
    c == '\n' || c == '\r' || c == '\U{000B}' || c == '\U{000C}'
    || ('\U{001C}' <= c <= '\U{001E}') || c == '\U{0085}' || c == '\U{2028}' || c == '\U{2029}'
  }

  predicate AllSpace(s: string) {
    forall i :: 0 <= i < |s| ==> IsSpace(s[i])
  }

  predicate NoSpace(s: string) {
    forall i :: 0 <= i < |s| ==> !IsSpace(s[i])
  }

  /** No whitespace at either end: what `str.strip` leaves. */
  predicate Stripped(s: string) {
    s == [] || (!IsSpace(s[0]) && !IsSpace(s[|s| - 1]))
  }

  /** `s.lstrip()`: the suffix left after the leading whitespace. */
  function LStrip(s: string): (r: string)
    ensures |r| <= |s| && r == s[|s| - |r|..]
    ensures AllSpace(s[..|s| - |r|])
    ensures r != [] ==> !IsSpace(r[0])
  {
    if s == [] then []
    else if IsSpace(s[0]) then LStrip(s[1..])
    else s
  }

  /** `s.rstrip()`: the prefix left before the trailing whitespace. */
  function RStrip(s: string): (r: string)
    ensures |r| <= |s| && r == s[..|r|]
    ensures AllSpace(s[|r|..])
    ensures r != [] ==> !IsSpace(r[|r| - 1])
  {
    if s == [] then []
    else if IsSpace(s[|s| - 1]) then RStrip(s[..|s| - 1])
    else s
  }

  /** `s.strip()`: the middle of `s` between its leading and trailing
      whitespace. */
  function Strip(s: string): (r: string)
    ensures Stripped(r)
    ensures forall i :: 0 <= i < |r| ==> r[i] in s
    ensures exists i :: SpaceAround(s, r, i)
  {
    var l := LStrip(s);
    var r := RStrip(l);
    StripWindow(s, l, r, |s| - |l|);
    r
  }

  /** `r` sits in `s` at `i` with only whitespace before and after it. */
  predicate SpaceAround(s: string, r: string, i: int) {
    0 <= i <= |s| - |r| && r == s[i..i + |r|] && AllSpace(s[..i]) && AllSpace(s[i + |r|..])
  }

  /** Where the stripped text sits in `s`: after the `k` leading
      characters, which `l` follows, and before what `r` leaves of `l`. */
  lemma StripWindow(s: string, l: string, r: string, k: nat)
    requires k <= |s| && l == s[k..] && AllSpace(s[..k])
    requires |r| <= |l| && r == l[..|r|] && AllSpace(l[|r|..])
    requires l != [] ==> !IsSpace(l[0])
    requires r != [] ==> !IsSpace(r[|r| - 1])
    ensures Stripped(r)
    ensures forall j :: 0 <= j < |r| ==> r[j] in s
    ensures SpaceAround(s, r, k)
  {
    forall j | 0 <= j < |r| ensures r[j] in s {
      assert r[j] == s[k + j];
    }
    assert r == s[k..k + |r|];
    assert AllSpace(s[k + |r|..]) by {
      assert s[k + |r|..] == l[|r|..];
    }
  }

  lemma {:induction false} StripOfStripped(s: string)
    requires Stripped(s)
    ensures Strip(s) == s
  {
  }

  /** `s.lstrip(c)` for a single character `c`. */
  function LStripChar(s: string, c: char): (r: string)
    ensures |r| <= |s| && r == s[|s| - |r|..]
    ensures forall i :: 0 <= i < |s| - |r| ==> s[i] == c
    ensures r != [] ==> r[0] != c
  {
    if s != [] && s[0] == c then LStripChar(s[1..], c) else s
  }

  /** The longest prefix of `s` without whitespace. */
  function TakeWord(s: string): (r: string)
    ensures r <= s && NoSpace(r)
    ensures |r| < |s| ==> IsSpace(s[|r|])
  {
    if s == [] || IsSpace(s[0]) then [] else [s[0]] + TakeWord(s[1..])
  }

  /** `s.split()[0]`: the first whitespace-separated word, or `None` where
      Python raises `IndexError` (a blank string). */
  function FirstWord(s: string): (r: Option<string>)
    ensures r.None? <==> AllSpace(s)
    ensures r.Some? ==> r.value != [] && NoSpace(r.value)
  {
    var t := LStrip(s);
    if t == [] then None else Some(TakeWord(t))
  }

  /** `s.splitlines()`: the lines of `s` without their line breaks, `\r\n`
      counting as one break and a final break opening no empty line. */
  function SplitLines(s: string): (lines: seq<string>)
    ensures forall k, i :: 0 <= k < |lines| && 0 <= i < |lines[k]| ==> !IsLineBreak(lines[k][i])
    decreases |s|
  {
    if s == [] then []
    else
      var k := FirstBreak(s);
      if k == |s| then [s]
      else
        var skip := if s[k] == '\r' && k + 1 < |s| && s[k + 1] == '\n' then 2 else 1;
        [s[..k]] + SplitLines(s[k + skip..])
  }

  /** The index of the first line break of `s`, or `|s|` when there is none. */
  function FirstBreak(s: string): (k: nat)
    ensures k <= |s|
    ensures forall i :: 0 <= i < k ==> !IsLineBreak(s[i])
    ensures k < |s| ==> IsLineBreak(s[k])
  {
    if s == [] || IsLineBreak(s[0]) then 0 else 1 + FirstBreak(s[1..])
  }

  /** `s.replace(a, b)` for single characters. */
  function ReplaceChar(s: string, a: char, b: char): (r: string)
    ensures |r| == |s|
    ensures forall i :: 0 <= i < |s| ==> r[i] == (if s[i] == a then b else s[i])
  {
    if s == [] then [] else [if s[0] == a then b else s[0]] + ReplaceChar(s[1..], a, b)
  }

  /** `s` without the characters `drop` selects (`re.sub` of a character
      class by ""). */
  function RemoveChars(s: string, drop: char -> bool): (r: string)
    ensures |r| <= |s|
    ensures forall i :: 0 <= i < |r| ==> !drop(r[i])
    ensures forall i :: 0 <= i < |s| && !drop(s[i]) ==> s[i] in r
    ensures forall i :: 0 <= i < |r| ==> r[i] in s
  {
    if s == [] then []
    else if drop(s[0]) then RemoveChars(s[1..], drop)
    else [s[0]] + RemoveChars(s[1..], drop)
  }

  /** `sep.join(parts)`. */
  function Join(sep: string, parts: seq<string>): string {
    if parts == [] then []
    else if |parts| == 1 then parts[0]
    else parts[0] + sep + Join(sep, parts[1..])
  }

  /** `needle in s` for strings. */
  predicate Contains(s: string, needle: string) {
    exists i :: 0 <= i <= |s| && OccursAt(s, needle, i)
  }

  predicate OccursAt(s: string, needle: string, i: int) {
    0 <= i <= |s| - |needle| && s[i..i + |needle|] == needle
  }

  /** `s.replace(pat, rep, 1)`: the first occurrence of a non-empty `pat`
      replaced. */
  function ReplaceFirst(s: string, pat: string, rep: string): (r: string)
    requires pat != []
    ensures !Contains(s, pat) ==> r == s
    decreases |s|
  {
    if |s| < |pat| then s
    else if pat <= s then
      assert OccursAt(s, pat, 0);
      rep + s[|pat|..]
    else
      ContainsInTail(s, pat);
      [s[0]] + ReplaceFirst(s[1..], pat, rep)
  }

  lemma ContainsInTail(s: string, needle: string)
    requires s != []
    ensures Contains(s[1..], needle) ==> Contains(s, needle)
  {
    if Contains(s[1..], needle) {
      var i :| 0 <= i <= |s[1..]| && OccursAt(s[1..], needle, i);
      assert s[i + 1..i + 1 + |needle|] == needle;
      assert 0 <= i + 1 <= |s| && OccursAt(s, needle, i + 1);
    }
  }

  // ----- digits and integers ------------------------------------------------

  predicate IsDigit(c: char) { '0' <= c <= '9' }

  /** `s.isdigit()` restricted to ASCII digits: non-empty and all digits. */
  predicate IsDecimal(s: string) {
    |s| > 0 && forall i :: 0 <= i < |s| ==> IsDigit(s[i])
  }

  /** `int(s)` for a string of digits. */
  function DigitsValue(s: string): nat
    requires forall i :: 0 <= i < |s| ==> IsDigit(s[i])
  {
    if s == [] then 0 else assert IsDigit(s[|s| - 1]); 10 * DigitsValue(s[..|s| - 1]) + (s[|s| - 1] as int - '0' as int) as nat
  }

  function DigitChar(d: nat): (c: char)
    requires d < 10
    ensures IsDigit(c) && (c - '0') as nat == d
  {
    "0123456789"[d]
  }

  /** `str(n)` for a natural number; reading it back with `int` gives `n`. */
  function NatToString(n: nat): (r: string)
    ensures IsDecimal(r) && DigitsValue(r) == n
    ensures r[0] == '0' ==> n == 0
  {
    if n < 10 then [DigitChar(n)]
    else
      var p := NatToString(n / 10);
      var r := p + [DigitChar(n % 10)];
      assert r[..|r| - 1] == p;
      r
  }

  /** `str(i)` for any integer. */
  function IntToString(i: int): (r: string)
    ensures |r| > 0
    ensures i >= 0 ==> IsDecimal(r) && DigitsValue(r) == i
    ensures i < 0 ==> r[0] == '-' && IsDecimal(r[1..]) && DigitsValue(r[1..]) == -i
  {
    if i < 0 then "-" + NatToString(-i) else NatToString(i)
  }

  /** `str.maketrans("٠١٢٣٤٥٦٧٨٩", "0123456789")` for one character. */
  function ArabicDigitToAscii(c: char): (r: char)
    ensures '\U{0660}' <= c <= '\U{0669}' ==> IsDigit(r) && (r - '0') as int == (c - '\U{0660}') as int
    ensures !('\U{0660}' <= c <= '\U{0669}') ==> r == c
  {
    if '\U{0660}' <= c <= '\U{0669}' then DigitChar((c - '\U{0660}') as nat) else c
  }

  /** `s.translate(_ARABIC_DIGITS)`. */
  function TranslateDigits(s: string): (r: string)
    ensures |r| == |s|
    ensures forall i :: 0 <= i < |s| ==> r[i] == ArabicDigitToAscii(s[i])
  {
    if s == [] then [] else [ArabicDigitToAscii(s[0])] + TranslateDigits(s[1..])
  }

  /** The direction marks `[‎‏‪-‮]` the parsers erase. */
  predicate IsBidiMark(c: char) {
    c == '\U{200E}' || c == '\U{200F}' || ('\U{202A}' <= c <= '\U{202E}')
  }

  /** `_clean`: direction marks removed, Arabic-Indic digits made ASCII. */
  function Clean(s: string): (r: string)
    ensures forall i :: 0 <= i < |r| ==> !IsBidiMark(r[i]) && !('\U{0660}' <= r[i] <= '\U{0669}')
  {
    TranslateDigits(RemoveChars(s, IsBidiMark))
  }

  /** `s.lower()` for ASCII letters (SQLite's NOCASE folds these alone). */
  function LowerAscii(s: string): (r: string)
    ensures |r| == |s|
    ensures forall i :: 0 <= i < |s| ==> r[i] == (if 'A' <= s[i] <= 'Z' then (s[i] - 'A' + 'a') as char else s[i])
  {
    if s == [] then []
    else [if 'A' <= s[0] <= 'Z' then (s[0] - 'A' + 'a') as char else s[0]] + LowerAscii(s[1..])
  }

  // ----- the tail `_(.+?)(?::\s*(.+))?$` shared by the session patterns -----

  /** Whether `x` (the text after the colon) matches `\s*(.+)$`, where `.`
      stops at `\n`, and if so the group. The greedy `\s*` gives back
      characters until `(.+)` can match a non-empty rest without `\n`. */
  function ColonTail(x: string): (g: Option<string>)
    ensures g.Some? ==> g.value != [] && |g.value| <= |x| && '\n' !in g.value && g.value <= x[|x| - |g.value|..] && AllSpace(x[..|x| - |g.value|])
  {
    var l := LStrip(x);
    if l != [] then
      (if '\n' in l then None else Some(l))
    else if x != [] && x[|x| - 1] != '\n' then Some([x[|x| - 1]])
    else None
  }

  /** Matches `(.+?)(?::\s*(.+))?$` against `r`: the lazy identifier grows one
      character at a time from `k` until the rest is empty or is a colon
      followed by a matching tail. Gives the identifier and the title group. */
  function LazyFrom(r: string, k: nat): (m: Option<(string, Option<string>)>)
    requires 1 <= k <= |r|
    requires forall i :: 0 <= i < k - 1 ==> r[i] != '\n'
    ensures m.Some? ==> 1 <= |m.value.0| <= |r| && m.value.0 == r[..|m.value.0|] && '\n' !in m.value.0
    decreases |r| - k
  {
    if r[k - 1] == '\n' then None
    else
      NoNewlineInPrefix(r, k);
      if k == |r| then
        assert r[..k] == r;
        Some((r, None))
      else
        var title := ColonTail(r[k + 1..]);
        if r[k] == ':' && title.Some? then Some((r[..k], Some(title.value)))
        else LazyFrom(r, k + 1)
  }

  lemma NoNewlineInPrefix(r: string, k: nat)
    requires k <= |r|
    requires forall i :: 0 <= i < k ==> r[i] != '\n'
    ensures '\n' !in r[..k]
  {
    forall c | c in r[..k] ensures c != '\n' {
      var i :| 0 <= i < k && r[..k][i] == c;
      assert r[i] == c;
    }
  }

  function LazyIdentTitle(r: string): (m: Option<(string, Option<string>)>)
    ensures m.Some? ==> m.value.0 != [] && m.value.0 <= r
  {
    if r == [] then None else LazyFrom(r, 1)
  }
}
