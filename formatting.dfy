/** Display helpers: Arabic ordinal words for lecture numbers and the cleaning
    of names taken from hashtags. */
module Formatting {
  import opened Wrappers
  import opened Text

  /** `ARABIC_ORDINALS`: the feminine ordinal for 1 to 10, at index n - 1. */
  const OrdinalWords: seq<string> := [
    "الأولى", "الثانية", "الثالثة", "الرابعة", "الخامسة",
    "السادسة", "السابعة", "الثامنة", "التاسعة", "العاشرة"
  ]

  /** No two numbers share an ordinal word, and no word starts with a digit or
      a minus sign. */
  lemma OrdinalWordsDistinct()
    ensures |OrdinalWords| == 10
    ensures forall i, j :: 0 <= i < j < 10 ==> OrdinalWords[i] != OrdinalWords[j]
    ensures forall i :: 0 <= i < 10 ==> |OrdinalWords[i]| > 0 && OrdinalWords[i][0] == 'ا'
  {
  }

  /** `arabic_ordinal(n)`: the word for 1 to 10, otherwise `str(n)`. */
  function ArabicOrdinal(n: int): (r: string)
    ensures 1 <= n <= 10 ==> r in OrdinalWords
    ensures !(1 <= n <= 10) ==> IntToString(n) == r
  {
    if 1 <= n <= 10 then OrdinalWords[n - 1] else IntToString(n)
  }

  /** `ORDINAL_WORDS.get(w)`: the number whose ordinal word is `w`. */
  function OrdinalNumber(w: string): (n: Option<int>)
    ensures n.Some? ==> 1 <= n.value <= 10 && OrdinalWords[n.value - 1] == w
    ensures n.None? ==> w !in OrdinalWords
  {
    OrdinalFrom(w, 0)
  }

  function OrdinalFrom(w: string, i: nat): (n: Option<int>)
    requires i <= 10
    ensures n.Some? ==> i + 1 <= n.value <= 10 && OrdinalWords[n.value - 1] == w
    ensures n.None? ==> forall j :: i <= j < 10 ==> OrdinalWords[j] != w
    decreases 10 - i
  {
    if i == 10 then None
    else if OrdinalWords[i] == w then Some(i + 1)
    else OrdinalFrom(w, i + 1)
  }

  /** Reading an ordinal back gives the number it was written for, and the
      fallback `str(n)` is never read as an ordinal. */
  lemma OrdinalRoundTrip(n: int)
    ensures 1 <= n <= 10 ==> OrdinalNumber(ArabicOrdinal(n)) == Some(n)
    ensures !(1 <= n <= 10) ==> OrdinalNumber(ArabicOrdinal(n)) == None
  {
    OrdinalWordsDistinct();
    var w := ArabicOrdinal(n);
    if 1 <= n <= 10 {
      var m := OrdinalNumber(w);
      assert m.Some? && OrdinalWords[m.value - 1] == OrdinalWords[n - 1];
    } else {
      assert w[0] == '-' || IsDigit(w[0]);
      assert w !in OrdinalWords;
    }
  }

  /** Every ordinal word belongs to exactly one number. */
  lemma OrdinalNumberInverse(w: string)
    ensures OrdinalNumber(w).Some? ==> ArabicOrdinal(OrdinalNumber(w).value) == w
    ensures w in OrdinalWords ==> OrdinalNumber(w).Some?
  {
  }

  predicate IsDirectionMark(c: char) { c == '\U{200E}' || c == '\U{200F}' }

  /** `to_display_name`: direction marks dropped, underscores turned into
      spaces, surrounding whitespace removed. */
  function ToDisplayName(value: string): (r: string)
    ensures Stripped(r) && |r| <= |value|
    ensures forall i :: 0 <= i < |r| ==> r[i] != '_' && !IsDirectionMark(r[i])
  {
    if value == [] then ""
    else
      var unmarked := RemoveChars(value, IsDirectionMark);
      var spaced := ReplaceChar(unmarked, '_', ' ');
      assert forall j :: 0 <= j < |spaced| ==> spaced[j] != '_' && !IsDirectionMark(spaced[j]);
      Strip(spaced)
  }

  /** Every character of a display name is a space or comes from the raw
      name. */
  lemma DisplayNameFromValue(value: string, k: int)
    requires 0 <= k < |ToDisplayName(value)|
    ensures ToDisplayName(value)[k] == ' ' || ToDisplayName(value)[k] in value
  {
    var unmarked := RemoveChars(value, IsDirectionMark);
    var spaced := ReplaceChar(unmarked, '_', ' ');
    var m := StripAt(spaced, k);
    assert spaced[m] == ' ' || spaced[m] == unmarked[m];
  }

  /** Every visible character of the raw name other than `_` and the
      direction marks survives into the display name. */
  lemma DisplayNameKeepsVisible(value: string, j: int)
    requires 0 <= j < |value| && value[j] != '_' && !IsDirectionMark(value[j]) && !IsSpace(value[j])
    ensures value[j] in ToDisplayName(value)
  {
    var unmarked := RemoveChars(value, IsDirectionMark);
    var spaced := ReplaceChar(unmarked, '_', ' ');
    var k :| 0 <= k < |unmarked| && unmarked[k] == value[j];
    assert spaced[k] == value[j];
    StripKeepsVisible(spaced, k);
  }

  /** A name with no underscore and no direction mark is only stripped. */
  lemma DisplayNameOfPlain(value: string)
    requires forall j :: 0 <= j < |value| ==> value[j] != '_' && !IsDirectionMark(value[j])
    ensures ToDisplayName(value) == Strip(value)
  {
    if value != [] {
      PlainNameUnchanged(value);
    }
  }

  /** A name with no underscore and no direction mark needs no cleaning but
      the strip. */
  lemma PlainNameUnchanged(value: string)
    ensures (forall j :: 0 <= j < |value| ==> value[j] != '_' && !IsDirectionMark(value[j])) ==>
      ReplaceChar(RemoveChars(value, IsDirectionMark), '_', ' ') == value
  {
    if forall j :: 0 <= j < |value| ==> value[j] != '_' && !IsDirectionMark(value[j]) {
      RemoveNothing(value, IsDirectionMark);
    }
  }

  /** Where the `k`-th character of `Strip(s)` sits in `s`. */
  lemma StripAt(s: string, k: int) returns (m: int)
    requires 0 <= k < |Strip(s)|
    ensures 0 <= m < |s| && Strip(s)[k] == s[m]
  {
    var r := Strip(s);
    var i :| SpaceAround(s, r, i);
    WindowAt(s, r, i, k);
    m := i + k;
  }

  lemma WindowAt(s: string, r: string, i: int, k: int)
    requires SpaceAround(s, r, i) && 0 <= k < |r|
    ensures 0 <= i + k < |s| && r[k] == s[i + k]
  {
  }

  /** Stripping removes whitespace only: a visible character stays. */
  lemma StripKeepsVisible(s: string, j: int)
    requires 0 <= j < |s| && !IsSpace(s[j])
    ensures s[j] in Strip(s)
  {
    var l := LStrip(s);
    var o := |s| - |l|;
    LStripKeeps(s, j);
    assert l[j - o] == s[j];
    RStripKeeps(l, j - o);
    assert Strip(s)[j - o] == s[j];
  }

  lemma {:induction false} LStripKeeps(s: string, j: int)
    requires 0 <= j < |s| && !IsSpace(s[j])
    ensures j >= |s| - |LStrip(s)|
  {
    if IsSpace(s[0]) {
      LStripKeeps(s[1..], j - 1);
    }
  }

  lemma {:induction false} RStripKeeps(s: string, j: int)
    requires 0 <= j < |s| && !IsSpace(s[j])
    ensures j < |RStrip(s)|
  {
    if IsSpace(s[|s| - 1]) {
      RStripKeeps(s[..|s| - 1], j);
    }
  }

  lemma {:induction false} RemoveNothing(s: string, drop: char -> bool)
    requires forall i :: 0 <= i < |s| ==> !drop(s[i])
    ensures RemoveChars(s, drop) == s
  {
    if s != [] {
      RemoveNothing(s[1..], drop);
    }
  }

  /** A display name is already clean: cleaning it again changes nothing. */
  lemma {:induction false} ToDisplayNameIdempotent(value: string)
    ensures ToDisplayName(ToDisplayName(value)) == ToDisplayName(value)
  {
    var r := ToDisplayName(value);
    if r != [] {
      RemoveNothing(r, IsDirectionMark);
      assert ReplaceChar(r, '_', ' ') == r;
      StripOfStripped(r);
    }
  }
}
