/** `parse_session`: reads `#<label>_<number>: <title>` where the label is
    the caption of an item type, and reports a missing number for item
    types that require one. */
module Session {
  import opened Wrappers
  import opened Text
  import opened Formatting
  import opened Taxonomy
  import HashtagParser

  datatype SessionInfo = SessionInfo(number: Option<int>, title: Option<string>, entityLabel: string)

  /** The label the pattern is built from: the item type's caption, or `""`
      when there is no such item type. */
  function EntityLabel(item: Option<ItemTypeView>): (lbl: string)
    ensures item.None? ==> lbl == ""
    ensures item.Some? ==> lbl == item.value.caption
  {
    if item.Some? then item.value.caption else ""
  }

  /** The label without its article `ال`, spaces turned into `_`. */
  function LabelToken(caption: string): (token: string)
    ensures |caption| >= 2 && caption[..2] == "ال" ==> |token| == |caption| - 2
    ensures !(|caption| >= 2 && caption[..2] == "ال") ==> |token| == |caption|
    ensures forall i :: 0 <= i < |token| ==> token[i] != ' '
  {
    var base := if |caption| >= 2 && caption[..2] == "ال" then caption[2..] else caption;
    ReplaceChar(base, ' ', '_')
  }

  /** The heads `^#?(?:token|الtoken)_` can take, in the order the regex
      engine tries them: with the `#` first when the text starts with one,
      then without it; the bare token before the one with the article. */
  function Heads(s: string, token: string): (heads: seq<string>)
    ensures |s| > 0 && s[0] == '#' ==> heads == ["#" + token + "_", "#ال" + token + "_", token + "_", "ال" + token + "_"]
    ensures !(|s| > 0 && s[0] == '#') ==> heads == [token + "_", "ال" + token + "_"]
  {
    if |s| > 0 && s[0] == '#' then ["#" + token + "_", "#ال" + token + "_", token + "_", "ال" + token + "_"]
    else [token + "_", "ال" + token + "_"]
  }

  /** Whether the text starts with `head` and the rest matches the tail
      `(.+?)(?::\s*(.+))?$`. */
  predicate HeadMatches(s: string, head: string) {
    head <= s && LazyIdentTitle(s[|head|..]).Some?
  }

  /** The groups of the first head that matches. */
  function FirstMatch(heads: seq<string>, s: string): (m: Option<(string, Option<string>)>)
    ensures m.Some? <==> exists i :: 0 <= i < |heads| && HeadMatches(s, heads[i])
    ensures m.Some? ==>
      exists i :: (0 <= i < |heads| && HeadMatches(s, heads[i])
        && m == LazyIdentTitle(s[|heads[i]|..]) && forall j :: 0 <= j < i ==> !HeadMatches(s, heads[j]))
  {
    if heads == [] then None
    else if HeadMatches(s, heads[0]) then LazyIdentTitle(s[|heads[0]|..])
    else
      var m := FirstMatch(heads[1..], s);
      FirstMatchLift(heads, s, m);
      m
  }

  /** What holds of the later heads holds of all of them when the first
      does not match. */
  lemma FirstMatchLift(heads: seq<string>, s: string, m: Option<(string, Option<string>)>)
    requires heads != [] && !HeadMatches(s, heads[0])
    requires var tail := heads[1..];
      (m.Some? <==> exists i :: 0 <= i < |tail| && HeadMatches(s, tail[i]))
      && (m.Some? ==>
            exists i :: (0 <= i < |tail| && HeadMatches(s, tail[i])
              && m == LazyIdentTitle(s[|tail[i]|..]) && forall j :: 0 <= j < i ==> !HeadMatches(s, tail[j])))
    ensures m.Some? <==> exists i :: 0 <= i < |heads| && HeadMatches(s, heads[i])
    ensures m.Some? ==>
      exists i :: (0 <= i < |heads| && HeadMatches(s, heads[i])
        && m == LazyIdentTitle(s[|heads[i]|..]) && forall j :: 0 <= j < i ==> !HeadMatches(s, heads[j]))
  {
    var tail := heads[1..];
    if m.Some? {
      var i :| 0 <= i < |tail| && HeadMatches(s, tail[i])
        && m == LazyIdentTitle(s[|tail[i]|..]) && forall j :: 0 <= j < i ==> !HeadMatches(s, tail[j]);
      NoEarlierMatch(heads, s, i);
      assert 0 <= i + 1 < |heads| && HeadMatches(s, heads[i + 1]) && m == LazyIdentTitle(s[|heads[i + 1]|..]);
    } else {
      NoEarlierMatch(heads, s, |tail|);
    }
  }

  /** Shifting an index of `heads[1..]` by one past a first head that does
      not match. */
  lemma NoEarlierMatch(heads: seq<string>, s: string, i: nat)
    requires i < |heads| && !HeadMatches(s, heads[0])
    requires forall j :: 0 <= j < i ==> !HeadMatches(s, heads[1..][j])
    ensures forall j :: 0 <= j <= i ==> !HeadMatches(s, heads[j]) || j == i
    ensures i + 1 < |heads| ==> heads[1..][i] == heads[i + 1]
  {
    forall j | 0 < j < i + 1 ensures !HeadMatches(s, heads[j]) || j == i {
      if j < i {
        assert heads[1..][j - 1] == heads[j];
      }
    }
  }

  /** `pattern.match(text)` for the pattern built from `caption`. */
  function SessionMatch(caption: string, s: string): Option<(string, Option<string>)> {
    FirstMatch(Heads(s, LabelToken(caption)), s)
  }

  /** The number an identifier stands for: after stripping and translating
      Arabic-Indic digits, digits are read as an integer, anything else as
      an ordinal word. */
  function IdentNumber(ident: string): (n: Option<int>)
    ensures var d := TranslateDigits(Strip(ident));
      (IsDecimal(d) ==> n == Some(DigitsValue(d))) && (!IsDecimal(d) ==> n == OrdinalNumber(d))
  {
    HashtagParser.LectureNumber(TranslateDigits(Strip(ident)))
  }

  /** `parse_session(item_type_id, text, lang=lang)`. The item type is read
      with disabled ones included. */
  function ParseSession(items: seq<ItemTypeRow>, itemTypeId: int, lang: Lang, text: string)
    : (r: (SessionInfo, Option<HashtagParser.ParseError>))
    ensures r.0.entityLabel == EntityLabel(GetItemType(items, itemTypeId, lang, true))
    ensures r.1.Some? ==> r.1 == Some(HashtagParser.ENoSession) && r.0.number.None?
    ensures var item := GetItemType(items, itemTypeId, lang, true);
      r.1.Some? <==> item.Some? && item.value.requiresLecture && ParseNumberAndTitle(EntityLabel(item), text).0 in {None, Some(0)}
    ensures r.0.title == ParseNumberAndTitle(EntityLabel(GetItemType(items, itemTypeId, lang, true)), text).1
    ensures r.1.None? ==> r.0.number == ParseNumberAndTitle(EntityLabel(GetItemType(items, itemTypeId, lang, true)), text).0
  {
    var item := GetItemType(items, itemTypeId, lang, true);
    var caption := EntityLabel(item);
    var (number, title) := ParseNumberAndTitle(caption, text);
    var requires_ := item.Some? && item.value.requiresLecture;
    if requires_ && (number.None? || number.value == 0) then
      (SessionInfo(None, title, caption), Some(HashtagParser.ENoSession))
    else (SessionInfo(number, title, caption), None)
  }

  /** The number and title read from the text against `caption`: the groups
      of the match, or, without a match, no number and the text without its
      leading `#`s as the title (`None` when that is empty). */
  function ParseNumberAndTitle(caption: string, text: string): (r: (Option<int>, Option<string>))
    ensures var m := SessionMatch(caption, Strip(text));
      m.Some? ==>
        r.0 == IdentNumber(m.value.0) && r.1 == (if m.value.1.Some? then Some(Strip(m.value.1.value)) else None)
    ensures var m := SessionMatch(caption, Strip(text));
      m.None? ==> r.0 == None && r.1 == (if LStripChar(Strip(text), '#') == [] then None else Some(LStripChar(Strip(text), '#')))
  {
    var s := Strip(text);
    match SessionMatch(caption, s)
    case Some((ident, title)) =>
      (IdentNumber(ident), if title.Some? then Some(Strip(title.value)) else None)
    case None =>
      var stripped := LStripChar(s, '#');
      (None, if stripped == [] then None else Some(stripped))
  }

  /** Every way of writing the tag is accepted: with or without `#`, with or
      without the article, as long as the rest is an identifier with an
      optional `: title`. */
  lemma AcceptsAllSpellings(caption: string, hash: string, article: string, rest: string)
    requires hash in {"", "#"} && article in {"", "ال"}
    requires LazyIdentTitle(rest).Some?
    ensures var token := LabelToken(caption);
      SessionMatch(caption, hash + article + token + "_" + rest).Some?
  {
    var token := LabelToken(caption);
    var head := hash + article + token + "_";
    var s := head + rest;
    HeadThenRest(head, rest);
    var heads := Heads(s, token);
    var k := HeadIndex(s, token, hash, article);
    assert HeadMatches(s, heads[k]);
  }

  /** A head followed by an identifier (and optional title) matches. */
  lemma HeadThenRest(head: string, rest: string)
    requires LazyIdentTitle(rest).Some?
    ensures HeadMatches(head + rest, head)
  {
    assert (head + rest)[|head|..] == rest;
  }

  /** Where among the heads tried the spelling `hash + article + token + "_"`
      sits. */
  lemma HeadIndex(s: string, token: string, hash: string, article: string) returns (k: nat)
    requires hash in {"", "#"} && article in {"", "ال"}
    requires hash + article + token + "_" <= s
    ensures k < |Heads(s, token)| && Heads(s, token)[k] == hash + article + token + "_"
  {
    var head := hash + article + token + "_";
    if hash == "#" {
      assert s[0] == head[0] == '#';
      if article == "" {
        assert hash + article == "#";
        k := 0;
      } else {
        assert hash + article == "#ال";
        k := 1;
      }
    } else {
      assert hash + article == article;
      if article == "" {
        assert head == token + "_";
        k := if |s| > 0 && s[0] == '#' then 2 else 0;
      } else {
        assert s[0] == head[0] != '#';
        k := 1;
      }
    }
  }

  /** An item type that requires a lecture, with a number found that is not
      zero, parses without error; an item type that does not require one
      never reports `E-NO-SESSION`. */
  lemma NoSessionOnlyWhenRequired(items: seq<ItemTypeRow>, itemTypeId: int, lang: Lang, text: string)
    ensures var item := GetItemType(items, itemTypeId, lang, true);
      !(item.Some? && item.value.requiresLecture) ==> ParseSession(items, itemTypeId, lang, text).1.None?
    ensures var item := GetItemType(items, itemTypeId, lang, true);
      var n := ParseNumberAndTitle(EntityLabel(item), text).0;
      n.Some? && n.value != 0 ==> ParseSession(items, itemTypeId, lang, text) == (SessionInfo(n, ParseNumberAndTitle(EntityLabel(item), text).1, EntityLabel(item)), None)
  {
  }

  /** The example of the tests: with the item type `محاضرة`, which requires
      a lecture, `#المحاضرة_5: المقدمة` is lecture 5 titled `المقدمة`. */
  lemma LectureExample(items: seq<ItemTypeRow>, itemTypeId: int, lang: Lang, item: ItemTypeView)
    requires GetItemType(items, itemTypeId, lang, true) == Some(item)
    requires item.caption == "محاضرة" && item.requiresLecture
    ensures ParseSession(items, itemTypeId, lang, "#المحاضرة_5: المقدمة")
      == (SessionInfo(Some(5), Some("المقدمة"), "محاضرة"), None)
  {
    ExampleNumberAndTitle("محاضرة", "#المحاضرة_5: المقدمة", "5: المقدمة", "5", "المقدمة");
  }

  /** The groups read from the example. */
  lemma ExampleNumberAndTitle(caption: string, text: string, rest: string, ident: string, title: string)
    requires caption == "محاضرة" && text == "#المحاضرة_5: المقدمة"
    requires rest == "5: المقدمة" && ident == "5" && title == "المقدمة"
    ensures ParseNumberAndTitle(caption, text) == (Some(5), Some(title))
  {
    ExampleMatch(caption, text, rest, ident, title);
    ExampleTextStripped(text);
    ExampleTitleStripped(title);
    ExampleIdentStripped(ident);
    DigitFive(ident);
    MatchedGroups(caption, text, ident, title, 5);
  }

  /** The example matches the second head, with identifier `5` and title
      `المقدمة`. */
  lemma ExampleMatch(caption: string, text: string, rest: string, ident: string, title: string)
    requires caption == "محاضرة" && text == "#المحاضرة_5: المقدمة"
    requires rest == "5: المقدمة" && ident == "5" && title == "المقدمة"
    ensures SessionMatch(caption, text) == Some((ident, Some(title)))
  {
    ExampleShape(caption, text, rest);
    ExampleTail(rest, ident, title);
    SecondHeadMatch(caption, text, rest);
  }

  /** A text that is its own `strip()` and matches with an identifier and a
      title gives the identifier's number and the stripped title. */
  lemma MatchedGroups(caption: string, text: string, ident: string, title: string, n: int)
    requires Strip(text) == text && SessionMatch(caption, text) == Some((ident, Some(title)))
    requires Strip(ident) == ident && TranslateDigits(ident) == ident && HashtagParser.LectureNumber(ident) == Some(n)
    requires Strip(title) == title
    ensures ParseNumberAndTitle(caption, text) == (Some(n), Some(title))
  {
  }

  /** Where the example's parts sit. */
  lemma ExampleShape(caption: string, text: string, rest: string)
    requires caption == "محاضرة" && text == "#المحاضرة_5: المقدمة" && rest == "5: المقدمة"
    ensures LabelToken(caption) == caption
    ensures |text| > 0 && text[0] == '#' && !("#" + caption + "_" <= text)
    ensures "#ال" + caption + "_" <= text && text[|"#ال" + caption + "_"|..] == rest
  {
    ExampleToken(caption);
    ExampleBareHead(caption, text);
    ExampleArticleHead(caption, text, rest);
  }

  /** The example does not start with `#` and the bare label. */
  lemma ExampleBareHead(caption: string, text: string)
    requires caption == "محاضرة" && text == "#المحاضرة_5: المقدمة"
    ensures |text| > 0 && text[0] == '#' && !("#" + caption + "_" <= text)
  {
    assert text[1] != ("#" + caption + "_")[1];
  }

  /** The example starts with `#` and the label with its article, and the
      rest follows. */
  lemma ExampleArticleHead(caption: string, text: string, rest: string)
    requires caption == "محاضرة" && text == "#المحاضرة_5: المقدمة" && rest == "5: المقدمة"
    ensures "#ال" + caption + "_" <= text && text[|"#ال" + caption + "_"|..] == rest
  {
    var head := "#ال" + caption + "_";
    assert |head| == 10 && text[..10] == head;
  }

  /** The label `محاضرة` has no article and no space: it is its own token. */
  lemma ExampleToken(caption: string)
    requires caption == "محاضرة"
    ensures LabelToken(caption) == caption
  {
    assert caption[..2][0] == 'م' != "ال"[0];
    assert forall i :: 0 <= i < |caption| ==> caption[i] != ' ';
    assert ReplaceChar(caption, ' ', '_') == caption;
  }

  /** The text starts with `#`, not with `#` and the bare label, but with
      `#` and the label with its article: the second head decides. */
  lemma SecondHeadMatch(caption: string, text: string, rest: string)
    requires LabelToken(caption) == caption
    requires |text| > 0 && text[0] == '#' && !("#" + caption + "_" <= text)
    requires "#ال" + caption + "_" <= text && text[|"#ال" + caption + "_"|..] == rest
    requires LazyIdentTitle(rest).Some?
    ensures SessionMatch(caption, text) == LazyIdentTitle(rest)
  {
    var heads := Heads(text, caption);
    assert heads[0] == "#" + caption + "_" && heads[1] == "#ال" + caption + "_";
    assert !HeadMatches(text, heads[0]);
    assert HeadMatches(text, heads[1]);
    assert heads[1..][0] == heads[1];
    assert FirstMatch(heads[1..], text) == LazyIdentTitle(rest);
  }

  /** The example text has no surrounding whitespace. */
  lemma ExampleTextStripped(text: string)
    requires text == "#المحاضرة_5: المقدمة"
    ensures Strip(text) == text
  {
    StripUnspaced(text);
  }

  /** The example title has no surrounding whitespace. */
  lemma ExampleTitleStripped(title: string)
    requires title == "المقدمة"
    ensures Strip(title) == title
  {
    StripUnspaced(title);
  }

  /** The example identifier has no surrounding whitespace. */
  lemma ExampleIdentStripped(ident: string)
    requires ident == "5"
    ensures Strip(ident) == ident
  {
    StripUnspaced(ident);
  }

  /** The identifier `5` is the number 5. */
  lemma DigitFive(ident: string)
    requires ident == "5"
    ensures TranslateDigits(ident) == ident && HashtagParser.LectureNumber(ident) == Some(5)
  {
    assert TranslateDigits(ident)[0] == '5';
    assert IsDecimal(ident) && ident[..0] == [];
    assert DigitsValue(ident) == 10 * DigitsValue([]) + 5;
  }

  /** The tail after the head: identifier `5`, title `المقدمة`. */
  lemma ExampleTail(rest: string, ident: string, title: string)
    requires rest == "5: المقدمة" && ident == "5" && title == "المقدمة"
    ensures LazyIdentTitle(rest) == Some((ident, Some(title)))
  {
    var x := rest[2..];
    var y := x[1..];
    assert |rest| == 10 && rest[0] != '\n' && rest[1] == ':';
    assert IsSpace(x[0]) && !IsSpace(y[0]) && '\n' !in y;
    assert rest[..1] == ident && y == title;
    SpacedTitle(x, y);
    ColonAfterFirst(rest, y);
  }

  /** One space, then a title without line breaks: the title is the group. */
  lemma SpacedTitle(x: string, y: string)
    requires |x| > 1 && IsSpace(x[0]) && y == x[1..] && !IsSpace(y[0]) && '\n' !in y
    ensures ColonTail(x) == Some(y)
  {
    assert LStrip(y) == y;
  }

  /** A one-character identifier followed by `:` and a title. */
  lemma ColonAfterFirst(r: string, title: string)
    requires |r| > 2 && r[0] != '\n' && r[1] == ':' && ColonTail(r[2..]) == Some(title)
    ensures LazyIdentTitle(r) == Some((r[..1], Some(title)))
  {
  }

  /** A text with no whitespace at its ends is its own `strip()`. */
  lemma StripUnspaced(s: string)
    requires s != [] && !IsSpace(s[0]) && !IsSpace(s[|s| - 1])
    ensures Strip(s) == s
  {
    assert LStrip(s) == s;
    assert RStrip(s) == s;
  }
}
