/** `extract_hijri_year`: the first Hijri year of the thirteenth to fifteenth
    centuries written in a text, after the text is cleaned the way the
    hashtag parser cleans captions. */
module HijriYear {
  import opened Wrappers
  import opened Text
  import Formatting

  /** Where the pattern `(?:^|\D)((?:13|14|15)\d{2})(?:هـ|ه)?(?:\D|$)` can
      capture its group: four digits starting with 13, 14 or 15, with no
      digit right before and none right after. The optional suffix never
      matters, since its letters are themselves non-digits. */
  predicate YearAt(s: string, q: nat) {
    q + 4 <= |s| && IsDecimal(s[q..q + 4]) && s[q] == '1' && '3' <= s[q + 1] <= '5'
    && (q == 0 || !IsDigit(s[q - 1])) && (q + 4 == |s| || !IsDigit(s[q + 4]))
  }

  /** The leftmost place at or after `q` where the group can be captured:
      `re.search` tries the start positions in order, and the capture at a
      start is one character on unless the start is the beginning. */
  function SearchFrom(s: string, q: nat): (r: Option<nat>)
    ensures r.Some? ==> q <= r.value && YearAt(s, r.value) && forall p :: q <= p < r.value ==> !YearAt(s, p)
    ensures r.None? ==> forall p :: q <= p ==> !YearAt(s, p)
    decreases |s| - q
  {
    if q + 4 > |s| then None
    else if YearAt(s, q) then Some(q)
    else SearchFrom(s, q + 1)
  }

  /** The value of four digits. */
  lemma FourDigits(w: string)
    requires |w| == 4 && IsDecimal(w)
    ensures DigitsValue(w) == 1000 * (w[0] - '0') as int + 100 * (w[1] - '0') as int + 10 * (w[2] - '0') as int + (w[3] - '0') as int
  {
    assert IsDigit(w[0]) && IsDigit(w[1]) && IsDigit(w[2]);
    assert w[..3][..2][..1][..0] == [];
    assert w[..3][..2][..1] == w[..1] && w[..3][..2] == w[..2];
    assert DigitsValue(w[..1]) == (w[0] - '0') as int;
    assert DigitsValue(w[..2]) == 10 * (w[0] - '0') as int + (w[1] - '0') as int;
    assert DigitsValue(w[..3]) == 100 * (w[0] - '0') as int + 10 * (w[1] - '0') as int + (w[2] - '0') as int;
  }

  /** A captured year lies between 1300 and 1599, so the range check of the
      source never rejects one. */
  lemma CapturedYearInRange(s: string, q: nat)
    requires YearAt(s, q)
    ensures 1300 <= DigitsValue(s[q..q + 4]) <= 1599
  {
    var w := s[q..q + 4];
    FourDigits(w);
    assert w[0] == '1' && '3' <= w[1] <= '5';
  }

  /** `extract_hijri_year(text)`: `None` for a missing or empty text or when
      no year is written; otherwise the year at the leftmost capture. */
  function ExtractHijriYear(text: Option<string>): (r: Option<int>)
    ensures r.Some? ==> 1300 <= r.value <= 1600
    ensures r.Some? <==> text.Some? && exists q :: YearAt(Clean(text.value), q)
    ensures r.Some? ==> FirstYear(Clean(text.value), r.value)
  {
    if text.None? || text.value == [] then
      assert text.Some? ==> Clean(text.value) == [];
      None
    else YearIn(Clean(text.value))
  }

  /** `y` is the year at the leftmost capture in `s`. */
  ghost predicate FirstYear(s: string, y: int) {
    exists q: nat :: YearAt(s, q) && y == DigitsValue(s[q..q + 4]) && forall p :: 0 <= p < q ==> !YearAt(s, p)
  }

  /** The search and the range check on a cleaned text. */
  function YearIn(s: string): (r: Option<int>)
    ensures r.Some? ==> 1300 <= r.value <= 1600 && FirstYear(s, r.value)
    ensures r.Some? <==> exists q :: YearAt(s, q)
  {
    match SearchFrom(s, 0)
    case None => None
    case Some(q) =>
      CapturedYearInRange(s, q);
      var year := DigitsValue(s[q..q + 4]);
      if 1300 <= year <= 1600 then Some(year) else None
  }

  /** Cleaning twice is cleaning once. */
  lemma CleanIdempotent(s: string)
    ensures Clean(Clean(s)) == Clean(s)
  {
    var c := Clean(s);
    Formatting.RemoveNothing(c, IsBidiMark);
    assert TranslateDigits(c) == c;
  }

  /** Direction marks and Arabic-Indic digits do not change the result:
      the text is read in its cleaned form. */
  lemma CleanedTextSameYear(text: string)
    ensures ExtractHijriYear(Some(Clean(text))) == ExtractHijriYear(Some(text))
  {
    CleanIdempotent(text);
    if text == [] {
      assert Clean(text) == [];
    } else if Clean(text) == [] {
      assert !YearAt(Clean(text), 0);
    }
  }

  /** A year after a word, written in Arabic-Indic digits with the suffix
      `هـ`: `"سنة #١٤٤٦هـ"` reads as 1446. */
  lemma ArabicIndicYear()
    ensures ExtractHijriYear(Some("سنة #١٤٤٦هـ")) == Some(1446)
  {
    CleanArabicIndicYear();
    TranslateExample("سنة #١٤٤٦هـ");
    YearInExample();
  }

  /** The example holds no direction mark. */
  lemma CleanArabicIndicYear()
    ensures RemoveChars("سنة #١٤٤٦هـ", IsBidiMark) == "سنة #١٤٤٦هـ"
  {
    var text := "سنة #١٤٤٦هـ";
    assert |text| == 11;
    assert forall i :: 0 <= i < |text| ==> !IsBidiMark(text[i]);
    Formatting.RemoveNothing(text, IsBidiMark);
  }

  /** Its digits become ASCII. */
  lemma TranslateExample(text: string)
    requires text == "سنة #١٤٤٦هـ"
    ensures TranslateDigits(text) == "سنة #1446هـ"
  {
    var t := TranslateDigits(text);
    assert |t| == 11;
    assert t[5] == '1' && t[6] == '4' && t[7] == '4' && t[8] == '6';
    assert t[0] == text[0] && t[1] == text[1] && t[2] == text[2] && t[3] == text[3] && t[4] == text[4];
    assert t[9] == text[9] && t[10] == text[10];
  }

  /** The cleaned example holds 1446 at its first capture. */
  lemma YearInExample()
    ensures YearIn("سنة #1446هـ") == Some(1446)
  {
    var c := "سنة #1446هـ";
    assert !YearAt(c, 0) && !YearAt(c, 1) && !YearAt(c, 2) && !YearAt(c, 3) && !YearAt(c, 4);
    assert YearAt(c, 5);
    assert SearchFrom(c, 0) == Some(5);
    FourDigits(c[5..9]);
  }

  /** A text without digits holds no year. */
  lemma NoDigitsNoYear(text: string)
    requires forall i :: 0 <= i < |Clean(text)| ==> !IsDigit(Clean(text)[i])
    ensures ExtractHijriYear(Some(text)) == None
  {
  }

  /** Digits glued to other digits are not a year: a run of five digits such
      as 14460 has no capture inside it. */
  lemma LongRunNoYear(s: string, q: nat)
    requires q + 5 <= |s| && IsDecimal(s[q..q + 5])
    ensures !YearAt(s, q) && !YearAt(s, q + 1)
  {
    assert IsDigit(s[q..q + 5][4]);
    assert IsDigit(s[q..q + 5][0]);
  }
}
