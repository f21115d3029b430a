/** The personal/health-information policy: a text (with its file name) is
    sensitive when enough of the configured keywords occur in it and
    patterns match it. */
module Sensitivity {
  import opened Wrappers
  import Seqs
  import Text

  /** The keyword and pattern lists read from the patterns file. */
  datatype PatternData = PatternData(keywords: seq<string>, patterns: seq<string>)

  /** `" ".join(part for part in [text, filename] if part)`. */
  function Content(text: string, filename: Option<string>): (r: string)
    ensures filename.None? || filename.value == "" ==> r == text
    ensures text == "" && filename.Some? ==> r == filename.value
    ensures text != "" && filename.Some? && filename.value != "" ==> r == text + " " + filename.value
  {
    if filename.None? || filename.value == "" then text
    else if text == "" then filename.value
    else text + " " + filename.value
  }

  /** How many of `keywords` occur in `lowered`. */
  function KeywordHits(keywords: seq<string>, lowered: string): (n: nat)
    ensures n <= |keywords|
  {
    if keywords == [] then 0
    else KeywordHits(keywords[..|keywords| - 1], lowered)
         + (if Text.Contains(lowered, keywords[|keywords| - 1]) then 1 else 0)
  }

  /** How many of `patterns` match somewhere in `content`, by the regular
      expression search `search` (case-insensitive). */
  function PatternHits(patterns: seq<string>, content: string, search: (string, string) -> bool): (n: nat)
    ensures n <= |patterns|
  {
    if patterns == [] then 0
    else PatternHits(patterns[..|patterns| - 1], content, search)
         + (if search(patterns[|patterns| - 1], content) then 1 else 0)
  }

  /** One hit is enough in a clinical or case-study section, two elsewhere. */
  function Threshold(section: Option<string>): (t: nat)
    ensures t == 1 <==> section.Some? && (section.value == "clinical" || section.value == "case_study")
    ensures t == 1 || t == 2
  {
    if section.Some? && section.value in {"clinical", "case_study"} then 1 else 2
  }

  /** The verdict `is_sensitive` reaches, by the policy's lists. */
  predicate Sensitive(keywords: seq<string>, patterns: seq<string>, text: string, filename: Option<string>,
                      section: Option<string>, search: (string, string) -> bool)
  {
    var content := Content(text, filename);
    KeywordHits(keywords, Text.LowerAscii(content)) + PatternHits(patterns, content, search) >= Threshold(section)
  }

  /** `SensitivityPolicy`. */
  class SensitivityPolicy {
    var keywords: seq<string>
    var patterns: seq<string>

    /** Loads the lists from the patterns file, `None` standing for a file
        that is missing or fails to load; keywords are lower-cased once,
        here. */
    constructor (loaded: Option<PatternData>)
      ensures loaded.None? ==> keywords == [] && patterns == []
      ensures loaded.Some? ==> keywords == Seqs.Map(loaded.value.keywords, Text.LowerAscii)
                               && patterns == loaded.value.patterns
    {
      var data := if loaded.Some? then loaded.value else PatternData([], []);
      keywords := Seqs.Map(data.keywords, Text.LowerAscii);
      patterns := data.patterns;
    }

    /** `is_sensitive(text, filename=…, section=…)`: counts the keywords
        contained in the lower-cased content and the patterns matching it,
        and compares the count with the section's threshold. */
    method IsSensitive(text: string, filename: Option<string>, section: Option<string>,
                       search: (string, string) -> bool) returns (sensitive: bool)
      ensures sensitive == Sensitive(keywords, patterns, text, filename, section, search)
    {
      var content := Content(text, filename);
      var lowered := Text.LowerAscii(content);
      var hits := 0;
      for i := 0 to |keywords|
        invariant hits == KeywordHits(keywords[..i], lowered)
      {
        assert keywords[..i + 1][..i] == keywords[..i];
        if Text.Contains(lowered, keywords[i]) {
          hits := hits + 1;
        }
      }
      assert keywords[..|keywords|] == keywords;
      var keywordHits := hits;
      for i := 0 to |patterns|
        invariant hits == keywordHits + PatternHits(patterns[..i], content, search)
      {
        assert patterns[..i + 1][..i] == patterns[..i];
        if search(patterns[i], content) {
          hits := hits + 1;
        }
      }
      assert patterns[..|patterns|] == patterns;
      var threshold := if section.Some? && section.value in {"clinical", "case_study"} then 1 else 2;
      sensitive := hits >= threshold;
    }
  }

  /** With nothing loaded nothing is sensitive, in any section. */
  lemma NothingLoadedNothingSensitive(text: string, filename: Option<string>, section: Option<string>,
                                      search: (string, string) -> bool)
    ensures !Sensitive([], [], text, filename, section, search)
  {
  }

  /** What is sensitive anywhere is sensitive in a clinical section, and one
      hit there is enough. */
  lemma ClinicalIsStricter(keywords: seq<string>, patterns: seq<string>, text: string, filename: Option<string>,
                           section: Option<string>, search: (string, string) -> bool)
    ensures Sensitive(keywords, patterns, text, filename, section, search)
      ==> Sensitive(keywords, patterns, text, filename, Some("clinical"), search)
    ensures Sensitive(keywords, patterns, text, filename, Some("clinical"), search)
      <==> KeywordHits(keywords, Text.LowerAscii(Content(text, filename)))
           + PatternHits(patterns, Content(text, filename), search) >= 1
  {
  }

  /** A keyword that occurs among the keywords is counted. */
  lemma {:induction false} KeywordCounted(keywords: seq<string>, lowered: string, k: nat)
    requires k < |keywords| && Text.Contains(lowered, keywords[k])
    ensures KeywordHits(keywords, lowered) >= 1
  {
    if k < |keywords| - 1 {
      KeywordCounted(keywords[..|keywords| - 1], lowered, k);
    }
  }

  /** Lower-casing works character by character. */
  lemma {:induction false} LowerAppend(a: string, b: string)
    ensures Text.LowerAscii(a + b) == Text.LowerAscii(a) + Text.LowerAscii(b)
  {
    if a != [] {
      assert (a + b)[1..] == a[1..] + b;
      LowerAppend(a[1..], b);
    } else {
      assert a + b == b;
    }
  }

  /** What a text contains, the text followed by more contains. */
  lemma ContainsInLonger(s: string, t: string, needle: string)
    requires Text.Contains(s, needle)
    ensures Text.Contains(s + t, needle)
  {
    var i :| 0 <= i <= |s| && Text.OccursAt(s, needle, i);
    assert (s + t)[i..i + |needle|] == s[i..i + |needle|];
    assert Text.OccursAt(s + t, needle, i);
  }

  /** Whatever the text contains, the content contains. */
  lemma ContentHoldsText(text: string, filename: Option<string>, needle: string)
    requires Text.Contains(Text.LowerAscii(text), needle)
    ensures Text.Contains(Text.LowerAscii(Content(text, filename)), needle)
  {
    if filename.Some? && filename.value != "" && text != "" {
      var rest := " " + filename.value;
      assert Content(text, filename) == text + rest;
      LowerAppend(text, rest);
      ContainsInLonger(Text.LowerAscii(text), Text.LowerAscii(rest), needle);
    } else if filename.Some? && filename.value != "" {
      assert |needle| == 0;
      assert Text.OccursAt(Text.LowerAscii(Content(text, filename)), needle, 0);
    }
  }

  /** A configured keyword written in the text in any mix of upper and
      lower case is a hit, whatever the file name. */
  lemma KeywordInTextIsHit(raw: seq<string>, k: nat, text: string, filename: Option<string>)
    requires k < |raw| && Text.Contains(Text.LowerAscii(text), Text.LowerAscii(raw[k]))
    ensures KeywordHits(Seqs.Map(raw, Text.LowerAscii), Text.LowerAscii(Content(text, filename))) >= 1
  {
    ContentHoldsText(text, filename, Text.LowerAscii(raw[k]));
    KeywordCounted(Seqs.Map(raw, Text.LowerAscii), Text.LowerAscii(Content(text, filename)), k);
  }

  /** Another keyword can only add hits. */
  lemma MoreKeywordsMoreHits(keywords: seq<string>, extra: string, lowered: string)
    ensures KeywordHits(keywords + [extra], lowered) >= KeywordHits(keywords, lowered)
  {
    assert (keywords + [extra])[..|keywords|] == keywords;
  }
}
