/** The hashtag caption parser: the `#` lines of a caption are read in order
    as one content tag followed by year, lecturer and lecture tags. Aliases
    and their mappings are the hashtag tables, passed in as rows. */
module HashtagParser {
  import opened Wrappers
  import opened Text
  import opened Seqs
  import opened Formatting
  import opened HashtagRepo
  import opened Taxonomy

  /** The short error codes the caller localises. */
  datatype ParseError = ENoContext | EAliasUnknown | EHtMulti | ENoSession

  /** `ParsedHashtags`. */
  datatype ParsedHashtags = ParsedHashtags(
    contentType: Option<string>,
    lectureNo: Option<int>,
    lectureNoDisplay: Option<string>,
    title: Option<string>,
    year: Option<int>,
    lecturer: Option<string>,
    tags: seq<string>)

  /** The value of the loop's `step` variable. */
  datatype Stage = Content | Meta | Done

  /** The hashtag and taxonomy rows the parser reads. */
  datatype Tables = Tables(aliases: seq<AliasRow>, mappings: seq<MappingRow>, itemTypes: seq<ItemTypeRow>)

  /** The loop's variables between two tag lines. */
  datatype State = State(stage: Stage, info: ParsedHashtags, itemType: Option<ItemTypeView>)

  /** The outcome of one tag line: carry on, or return early with an error. */
  datatype StepResult = Go(st: State) | Stop(info: ParsedHashtags, err: ParseError)

  // ----- tag lines -----------------------------------------------------------

  predicate IsTagLine(s: string) { |s| > 0 && s[0] == '#' }

  /** `_split_lines`: the stripped lines that start with `#`, in order. */
  function SplitTagLines(text: string): (tags: seq<string>)
    ensures forall i :: 0 <= i < |tags| ==> IsTagLine(tags[i]) && Stripped(tags[i])
    ensures forall l :: l in SplitLines(text) && IsTagLine(Strip(l)) ==> Strip(l) in tags
    ensures forall t :: t in tags ==> exists l :: l in SplitLines(text) && Strip(l) == t
  {
    TagLinesMembers(SplitLines(text));
    Filter(Map(SplitLines(text), Strip), IsTagLine)
  }

  /** The stripped lines kept are the tag lines among the stripped lines. */
  lemma TagLinesMembers(lines: seq<string>)
    ensures var tags := Filter(Map(lines, Strip), IsTagLine);
      (forall i :: 0 <= i < |tags| ==> IsTagLine(tags[i]) && Stripped(tags[i]))
      && (forall l :: l in lines && IsTagLine(Strip(l)) ==> Strip(l) in tags)
      && (forall t :: t in tags ==> exists l :: l in lines && Strip(l) == t)
  {
    var tags := Filter(Map(lines, Strip), IsTagLine);
    FilterMapMembers(lines, Strip, IsTagLine);
    forall i | 0 <= i < |tags| ensures Stripped(tags[i]) {
      assert tags[i] in tags;
      var l :| l in lines && Strip(l) == tags[i];
    }
  }

  /** `raw.split()[0]` for a tag line, which starts with `#` and so with no
      whitespace: its first word. */
  function Token(raw: string): (token: string)
    ensures IsTagLine(raw) ==> IsTagLine(token)
    ensures NoSpace(token) && token <= raw
    ensures |token| < |raw| ==> IsSpace(raw[|token|])
  {
    TakeWord(raw)
  }

  /** `YEAR_TAG_RE.match(token)`: `#`, four digits and an optional هـ or ه,
      with nothing after; gives the four digits' value. */
  function YearTag(token: string): (y: Option<int>)
    ensures y.Some? ==> 0 <= y.value <= 9999
    ensures y.Some? <==> |token| >= 5 && token[0] == '#' && IsDecimal(token[1..5]) && token[5..] in ["", "هـ", "ه"]
  {
    if |token| >= 5 && token[0] == '#' && IsDecimal(token[1..5]) && token[5..] in ["", "هـ", "ه"] then
      DigitsBound(token[1..5]);
      assert Pow10(4) == 10000;
      Some(DigitsValue(token[1..5]))
    else None
  }

  lemma {:induction false} DigitsBound(s: string)
    requires forall i :: 0 <= i < |s| ==> IsDigit(s[i])
    ensures DigitsValue(s) < Pow10(|s|)
  {
    if s != [] {
      DigitsBound(s[..|s| - 1]);
    }
  }

  function Pow10(n: nat): nat { if n == 0 then 1 else 10 * Pow10(n - 1) }

  /** `LECTURER_PREFIXES`, tried in this order. */
  const LecturerPrefixes: seq<string> := [
    "الدكتور_", "الدكتورة_", "الأستاذ_", "الأستاذة_", "المهندس_", "المهندسة_", "م_", "م"
  ]

  /** The lecturer a tag names: the display name of what follows the first
      listed prefix the alias starts with. */
  function LecturerOf(alias: string): (r: Option<string>)
    ensures r.Some? <==> exists i :: 0 <= i < |LecturerPrefixes| && LecturerPrefixes[i] <= alias
    ensures r.Some? ==>
      exists i :: 0 <= i < |LecturerPrefixes| && LecturerPrefixes[i] <= alias
        && (forall j :: 0 <= j < i ==> !(LecturerPrefixes[j] <= alias))
        && r.value == ToDisplayName(alias[|LecturerPrefixes[i]|..])
  {
    LecturerFrom(alias, 0)
  }

  function LecturerFrom(alias: string, k: nat): (r: Option<string>)
    requires k <= |LecturerPrefixes|
    requires forall j :: 0 <= j < k ==> !(LecturerPrefixes[j] <= alias)
    ensures r.Some? <==> exists i :: k <= i < |LecturerPrefixes| && LecturerPrefixes[i] <= alias
    ensures r.Some? ==>
      exists i :: k <= i < |LecturerPrefixes| && LecturerPrefixes[i] <= alias
        && (forall j :: 0 <= j < i ==> !(LecturerPrefixes[j] <= alias))
        && r.value == ToDisplayName(alias[|LecturerPrefixes[i]|..])
    decreases |LecturerPrefixes| - k
  {
    if k == |LecturerPrefixes| then None
    else if LecturerPrefixes[k] <= alias then Some(ToDisplayName(alias[|LecturerPrefixes[k]|..]))
    else LecturerFrom(alias, k + 1)
  }

  /** The index of the first `c` in `s`, or `|s|`. */
  function IndexOf(s: string, c: char): (k: nat)
    ensures k <= |s| && (k < |s| ==> s[k] == c)
    ensures forall i :: 0 <= i < k ==> s[i] != c
  {
    if s == [] || s[0] == c then 0 else 1 + IndexOf(s[1..], c)
  }

  /** `raw` is `#`, then `prefix` (non-empty, no `_`), then `_`, then text
      starting with the non-empty `ident`. */
  predicate TagShape(raw: string, prefix: string, ident: string) {
    |raw| > 0 && raw[0] == '#' && prefix != [] && '_' !in prefix
    && 1 + |prefix| < |raw| && raw[1..1 + |prefix|] == prefix && raw[1 + |prefix|] == '_'
    && ident != [] && ident <= raw[2 + |prefix|..]
  }

  /** The text between `#` and the first `_` holds no `_`, and the
      identifier found after that `_` starts there. */
  lemma UnderscoreSplit(raw: string, u: nat, ident: string)
    requires 1 < u < |raw| && raw[0] == '#' && u == 1 + IndexOf(raw[1..], '_')
    requires ident != [] && ident <= raw[u + 1..]
    ensures TagShape(raw, raw[1..u], ident)
  {
    assert forall i :: 0 <= i < |raw[1..u]| ==> raw[1..u][i] == raw[1..][i];
  }

  /** `LECTURE_TAG_RE.match(raw)` on `^#([^_]+)_(.+?)(?::\s*(.+))?$`: the
      prefix runs from after `#` to the first `_` and must be non-empty; the
      rest is the lazy identifier with an optional `: title`. */
  function LectureTag(raw: string): (m: Option<(string, string, Option<string>)>)
    ensures m.Some? ==> TagShape(raw, m.value.0, m.value.1)
  {
    if |raw| == 0 || raw[0] != '#' then None
    else
      var u := 1 + IndexOf(raw[1..], '_');
      if u == 1 || u == |raw| then None
      else
        match LazyIdentTitle(raw[u + 1..])
        case None => None
        case Some((ident, title)) =>
          UnderscoreSplit(raw, u, ident);
          Some((raw[1..u], ident, title))
  }

  /** The lecture number an identifier names: its value when it is all
      digits, else the number of its ordinal word. */
  function LectureNumber(ident: string): (n: Option<int>)
    ensures IsDecimal(ident) ==> n == Some(DigitsValue(ident))
    ensures !IsDecimal(ident) ==> n == OrdinalNumber(ident)
  {
    if IsDecimal(ident) then Some(DigitsValue(ident)) else OrdinalNumber(ident)
  }

  /** `taxonomy.get_item_type(content_type)`: the text is bound to `id=?`,
      which SQLite's integer affinity matches only when the text is a number;
      disabled item types are not returned. */
  function ContentItemType(items: seq<ItemTypeRow>, contentType: Option<string>): (r: Option<ItemTypeView>)
    ensures r.Some? ==>
      contentType.Some? && IsDecimal(contentType.value) && r == GetItemType(items, DigitsValue(contentType.value), Ar, false)
  {
    if contentType.Some? && IsDecimal(contentType.value) then GetItemType(items, DigitsValue(contentType.value), Ar, false)
    else None
  }

  // ----- the loop, as a function -------------------------------------------

  function EmptyInfo(tags: seq<string>): ParsedHashtags {
    ParsedHashtags(None, None, None, None, None, None, tags)
  }

  /** The content step: the first tag line must be an alias whose first
      mapping is a content tag; its normalised text becomes the content type
      and selects the item type. */
  function ContentStep(t: Tables, info: ParsedHashtags, alias: string): (r: StepResult)
    ensures r.Go? ==> r.st.stage == Meta && r.st.info == info.(contentType := r.st.info.contentType)
    ensures r.Stop? ==> r.info == info
    ensures r == Stop(info, EHtMulti) ==> info.contentType.Some?
  {
    var rows := GetMappingsForAlias(t.aliases, t.mappings, alias);
    if rows == [] then Stop(info, EAliasUnknown)
    else if !rows[0].isContentTag then Stop(info, ENoContext)
    else if info.contentType.Some? then Stop(info, EHtMulti)
    else
      var contentType := match GetAlias(t.aliases, alias) case Some(a) => a.normalized case None => None;
      Go(State(Meta, info.(contentType := contentType), ContentItemType(t.itemTypes, contentType)))
  }

  /** A lecture tag `#prefix_ident[: title]` whose prefix must be an alias. */
  function LectureStep(t: Tables, st: State, prefix: string, ident: string, title: Option<string>): (r: StepResult)
    ensures r.Go? ==>
      r.st.stage == Done && r.st.itemType == st.itemType
      && r.st.info == st.info.(lectureNo := r.st.info.lectureNo, lectureNoDisplay := r.st.info.lectureNoDisplay, title := r.st.info.title)
    ensures r.Stop? ==> r == Stop(st.info, EAliasUnknown)
  {
    var info := st.info;
    if GetAlias(t.aliases, prefix).None? then Stop(info, EAliasUnknown)
    else
      var n := LectureNumber(Strip(ident));
      var display := if n.Some? && n.value != 0 then Some(ArabicOrdinal(n.value)) else info.lectureNoDisplay;
      var newTitle := if title.Some? then Some(Strip(title.value)) else info.title;
      Go(State(Done, info.(lectureNo := n, lectureNoDisplay := display, title := newTitle), st.itemType))
  }

  /** A tag line after the content tag: a year, else the first lecturer, else
      the first lecture tag, else any known alias. */
  function MetaStep(t: Tables, st: State, raw: string): (r: StepResult)
    requires st.stage != Content
    ensures r.Go? ==> r.st.stage != Content && r.st.info.tags == st.info.tags && r.st.info.contentType == st.info.contentType
    ensures r.Go? && st.info.lecturer.Some? ==> r.st.info.lecturer == st.info.lecturer
    ensures r.Stop? ==> r == Stop(st.info, EAliasUnknown)
    ensures r.Go? ==> r.st.itemType == st.itemType
  {
    var token := Token(raw);
    var alias := LStripChar(token, '#');
    var info := st.info;
    if YearTag(token).Some? then
      Go(st.(info := info.(year := YearTag(token))))
    else if info.lecturer.None? && LecturerOf(alias).Some? then
      Go(st.(info := info.(lecturer := LecturerOf(alias))))
    else if LectureTag(raw).Some? && info.lectureNo.None? then
      var (prefix, ident, title) := LectureTag(raw).value;
      LectureStep(t, st, prefix, ident, title)
    else if GetAlias(t.aliases, alias).None? then Stop(info, EAliasUnknown)
    else Go(st)
  }

  /** One pass of the loop of `parse_hashtags` over the tag line `raw`. */
  function Step(t: Tables, st: State, raw: string): (r: StepResult)
    ensures r.Go? ==> r.st.stage != Content && r.st.info.tags == st.info.tags
    ensures r.Stop? ==> r.info.tags == st.info.tags
    ensures r.Stop? && r.err == EHtMulti ==> st.stage == Content && st.info.contentType.Some?
    ensures st.info.lecturer.Some? && r.Go? ==> r.st.info.lecturer == st.info.lecturer
    ensures st.info.lecturer.Some? && r.Stop? ==> r.info.lecturer == st.info.lecturer
  {
    if st.stage == Content then ContentStep(t, st.info, LStripChar(Token(raw), '#'))
    else MetaStep(t, st, raw)
  }

  /** The loop over the first `n` tag lines from the state `start`, one
      `step` per line: the state after them, or the first early return. */
  function RunUpTo(step: (State, string) -> StepResult, start: State, tags: seq<string>, n: nat): StepResult
    requires n <= |tags|
  {
    if n == 0 then Go(start)
    else match RunUpTo(step, start, tags, n - 1)
      case Stop(info, err) => Stop(info, err)
      case Go(st) => step(st, tags[n - 1])
  }

  /** An early return ends the loop: later tag lines are not looked at. */
  lemma {:induction false} StopPersists(step: (State, string) -> StepResult, start: State, tags: seq<string>, n: nat, m: nat)
    requires n <= m <= |tags|
    requires RunUpTo(step, start, tags, n).Stop?
    ensures RunUpTo(step, start, tags, m) == RunUpTo(step, start, tags, n)
    decreases m
  {
    if m > n {
      StopPersists(step, start, tags, n, m - 1);
    }
  }

  /** A property of states that every step keeps holds from line `n` on, and
      an early return after line `n` satisfies what every step's early return
      from such a state satisfies. */
  lemma {:induction false} RunKeeps(step: (State, string) -> StepResult, start: State, tags: seq<string>, n: nat, m: nat,
                                    inv: State -> bool, ok: StepResult -> bool)
    requires n <= m <= |tags|
    requires RunUpTo(step, start, tags, n).Go? && inv(RunUpTo(step, start, tags, n).st)
    requires forall st, raw :: inv(st) && step(st, raw).Go? ==> inv(step(st, raw).st)
    requires forall st, raw :: inv(st) && step(st, raw).Stop? ==> ok(step(st, raw))
    ensures RunUpTo(step, start, tags, m).Go? ==> inv(RunUpTo(step, start, tags, m).st)
    ensures RunUpTo(step, start, tags, m).Stop? ==> ok(RunUpTo(step, start, tags, m))
    decreases m
  {
    if m > n {
      RunKeeps(step, start, tags, n, m - 1, inv, ok);
      var prev := RunUpTo(step, start, tags, m - 1);
      if prev.Go? {
        assert RunUpTo(step, start, tags, m) == step(prev.st, tags[m - 1]);
      }
    }
  }

  /** The loop body over the tables `t`. */
  function StepOf(t: Tables): (State, string) -> StepResult {
    (st, raw) => Step(t, st, raw)
  }

  /** The checks after the loop. */
  function Finish(st: State): (ParsedHashtags, Option<ParseError>) {
    if st.info.contentType.None? then (st.info, Some(ENoContext))
    else if st.itemType.Some? && st.itemType.value.requiresLecture && st.info.lectureNo.None? then (st.info, Some(ENoSession))
    else (st.info, None)
  }

  /** `parse_hashtags(text)` as a function of the caption and the tables. */
  function Parse(t: Tables, text: string): (ParsedHashtags, Option<ParseError>) {
    ParseTags(t, SplitTagLines(Clean(text)))
  }

  /** The parse of the tag lines once they are extracted. */
  function ParseTags(t: Tables, tags: seq<string>): (ParsedHashtags, Option<ParseError>) {
    var start := State(Content, EmptyInfo(tags), None);
    if tags == [] then (start.info, Some(ENoContext))
    else match RunUpTo(StepOf(t), start, tags, |tags|)
      case Stop(info, err) => (info, Some(err))
      case Go(st) => Finish(st)
  }

  /** The body of the loop of `parse_hashtags` on the first tag line. */
  method HandleContentTag(t: Tables, info: ParsedHashtags, alias: string) returns (r: StepResult)
    ensures r == ContentStep(t, info, alias)
    ensures var rows := GetMappingsForAlias(t.aliases, t.mappings, alias);
      (r == Stop(info, EAliasUnknown) <==> rows == [])
      && (r == Stop(info, ENoContext) <==> rows != [] && !rows[0].isContentTag)
      && (r.Go? <==> rows != [] && rows[0].isContentTag && info.contentType.None?)
    ensures r.Go? ==>
      var target := GetAlias(t.aliases, alias);
      target.Some? && r.st.info.contentType == target.value.normalized
      && r.st.itemType == ContentItemType(t.itemTypes, r.st.info.contentType)
  {
    var rows := GetMappingsForAlias(t.aliases, t.mappings, alias);
    if rows == [] {
      return Stop(info, EAliasUnknown);
    }
    if !rows[0].isContentTag {
      return Stop(info, ENoContext);
    }
    if info.contentType.Some? {
      return Stop(info, EHtMulti);
    }
    assert rows[0] in rows;
    var aliasRow := GetAlias(t.aliases, alias);
    var contentType := if aliasRow.Some? then aliasRow.value.normalized else None;
    var itemType := ContentItemType(t.itemTypes, contentType);
    return Go(State(Meta, info.(contentType := contentType), itemType));
  }

  /** The body of the loop of `parse_hashtags` on a later tag line. */
  method HandleMetaTag(t: Tables, st: State, raw: string) returns (r: StepResult)
    requires st.stage != Content
    ensures r == MetaStep(t, st, raw)
    ensures YearTag(Token(raw)).Some? ==> r == Go(st.(info := st.info.(year := YearTag(Token(raw)))))
    ensures YearTag(Token(raw)).None? && st.info.lecturer.None? && LecturerOf(LStripChar(Token(raw), '#')).Some? ==>
      r == Go(st.(info := st.info.(lecturer := LecturerOf(LStripChar(Token(raw), '#')))))
    ensures r.Stop? ==> r == Stop(st.info, EAliasUnknown) && YearTag(Token(raw)).None?
    ensures YearTag(Token(raw)).None? && (st.info.lecturer.Some? || LecturerOf(LStripChar(Token(raw), '#')).None?)
            && LectureTag(raw).Some? && st.info.lectureNo.None? ==>
      var (prefix, ident, title) := LectureTag(raw).value;
      (r.Stop? <==> GetAlias(t.aliases, prefix).None?)
      && (r.Go? ==> r.st.stage == Done && r.st.info.lectureNo == LectureNumber(Strip(ident))
                    && r.st.info.title == (if title.Some? then Some(Strip(title.value)) else st.info.title))
    ensures YearTag(Token(raw)).None? && (st.info.lecturer.Some? || LecturerOf(LStripChar(Token(raw), '#')).None?)
            && (LectureTag(raw).None? || st.info.lectureNo.Some?) ==>
      (r.Stop? <==> GetAlias(t.aliases, LStripChar(Token(raw), '#')).None?) && (r.Go? ==> r == Go(st))
  {
    var info := st.info;
    var token := Token(raw);
    var alias := LStripChar(token, '#');
    var year := YearTag(token);
    if year.Some? {
      info := info.(year := year);
      return Go(st.(info := info));
    }
    if info.lecturer.None? {
      var lecturer := LecturerOf(alias);
      if lecturer.Some? {
        info := info.(lecturer := lecturer);
        return Go(st.(info := info));
      }
    }
    var m := LectureTag(raw);
    if m.Some? && info.lectureNo.None? {
      var (prefix, ident, title) := m.value;
      assert MetaStep(t, st, raw) == LectureStep(t, st, prefix, ident, title);
      if GetAlias(t.aliases, prefix).None? {
        return Stop(info, EAliasUnknown);
      }
      var n := LectureNumber(Strip(ident));
      info := info.(lectureNo := n);
      if n.Some? && n.value != 0 {
        info := info.(lectureNoDisplay := Some(ArabicOrdinal(n.value)));
      }
      if title.Some? {
        info := info.(title := Some(Strip(title.value)));
      }
      return Go(State(Done, info, st.itemType));
    }
    if GetAlias(t.aliases, alias).None? {
      return Stop(info, EAliasUnknown);
    }
    return Go(st);
  }

  /** `parse_hashtags`: the state machine over the tag lines, returning the
      partly filled info together with the first error met. */
  method ParseHashtags(t: Tables, text: string) returns (info: ParsedHashtags, err: Option<ParseError>)
    ensures (info, err) == Parse(t, text)
  {
    var cleaned := Clean(text);
    var tags := SplitTagLines(cleaned);
    info, err := ParseTagLines(t, tags);
  }

  /** One pass of the loop body: the content step on the first tag line,
      the meta step on the later ones. */
  method HandleTag(t: Tables, st: State, raw: string) returns (r: StepResult)
    ensures r == Step(t, st, raw)
    ensures r.Stop? ==> r.info == st.info
    ensures r.Go? ==> r.st.stage != Content && r.st.info.tags == st.info.tags
    ensures st.stage != Content && r.Go? ==> r.st.info.contentType == st.info.contentType && r.st.itemType == st.itemType
    ensures st.stage != Content ==> r.Stop? ==> r.err == EAliasUnknown
  {
    if st.stage == Content {
      r := HandleContentTag(t, st.info, LStripChar(Token(raw), '#'));
    } else {
      r := HandleMetaTag(t, st, raw);
    }
  }

  /** The loop advances by one step. */
  lemma RunStep(t: Tables, start: State, tags: seq<string>, i: nat, st: State)
    requires i < |tags| && RunUpTo(StepOf(t), start, tags, i) == Go(st)
    ensures RunUpTo(StepOf(t), start, tags, i + 1) == Step(t, st, tags[i])
  {
  }

  method ParseTagLines(t: Tables, tags: seq<string>) returns (info: ParsedHashtags, err: Option<ParseError>)
    ensures (info, err) == ParseTags(t, tags)
  {
    info := EmptyInfo(tags);
    if tags == [] {
      return info, Some(ENoContext);
    }
    var st := State(Content, info, None);
    ghost var start := st;
    var i := 0;
    while i < |tags|
      invariant 0 <= i <= |tags|
      invariant RunUpTo(StepOf(t), start, tags, i) == Go(st)
    {
      var outcome := HandleTag(t, st, tags[i]);
      RunStep(t, start, tags, i, st);
      if outcome.Stop? {
        StopPersists(StepOf(t), start, tags, i + 1, |tags|);
        return outcome.info, Some(outcome.err);
      }
      st := outcome.st;
      i := i + 1;
    }
    var (finalInfo, finalErr) := Finish(st);
    return finalInfo, finalErr;
  }

  // ----- what the parser promises --------------------------------------------

  /** A caption without tag lines has no context. */
  lemma NoTagsNoContext(t: Tables, text: string)
    requires SplitTagLines(Clean(text)) == []
    ensures Parse(t, text) == (EmptyInfo([]), Some(ENoContext))
  {
  }

  /** The first tag line decides the content: an alias without mappings is
      unknown, and one whose first mapping is not a content tag gives no
      context. */
  lemma FirstTagDecidesContent(t: Tables, text: string)
    requires SplitTagLines(Clean(text)) != []
    ensures var raw := SplitTagLines(Clean(text))[0];
      var alias := LStripChar(Token(raw), '#');
      var rows := GetMappingsForAlias(t.aliases, t.mappings, alias);
      (rows == [] ==> Parse(t, text).1 == Some(EAliasUnknown))
      && (rows != [] && !rows[0].isContentTag ==> Parse(t, text).1 == Some(ENoContext))
  {
    var tags := SplitTagLines(Clean(text));
    var start := State(Content, EmptyInfo(tags), None);
    RunStep(t, start, tags, 0, start);
    var first := RunUpTo(StepOf(t), start, tags, 1);
    if first.Stop? {
      StopPersists(StepOf(t), start, tags, 1, |tags|);
    }
  }

  /** The state the loop keeps: before the content tag the info is still
      empty apart from its tags, so the `E-HT-MULTI` branch is dead. */
  ghost predicate Reachable(st: State) {
    st.stage == Content ==> st.info.contentType.None?
  }

  /** `E-HT-MULTI` is never returned: the content step runs once, before any
      content type is set. */
  lemma NeverMulti(t: Tables, text: string)
    ensures Parse(t, text).1 != Some(EHtMulti)
  {
    var tags := SplitTagLines(Clean(text));
    if tags != [] {
      var start := State(Content, EmptyInfo(tags), None);
      RunKeeps(StepOf(t), start, tags, 0, |tags|, Reachable, (r: StepResult) => r.Stop? && r.err != EHtMulti);
    }
  }

  /** The result always carries the tag lines of the caption. */
  lemma ParseKeepsTags(t: Tables, text: string)
    ensures Parse(t, text).0.tags == SplitTagLines(Clean(text))
  {
    var tags := SplitTagLines(Clean(text));
    if tags != [] {
      var start := State(Content, EmptyInfo(tags), None);
      var step := StepOf(t);
      var inv := (st: State) => st.info.tags == tags;
      var ok := (r: StepResult) => r.Stop? && r.info.tags == tags;
      forall st, raw | inv(st) && step(st, raw).Go? ensures inv(step(st, raw).st) {
        assert step(st, raw) == Step(t, st, raw);
      }
      forall st, raw | inv(st) && step(st, raw).Stop? ensures ok(step(st, raw)) {
        assert step(st, raw) == Step(t, st, raw);
      }
      RunKeeps(step, start, tags, 0, |tags|, inv, ok);
    }
  }

  /** After the content tag, a year tag sets the year to its four digits and
      changes nothing else. */
  lemma YearTagSetsYear(t: Tables, st: State, raw: string)
    requires IsTagLine(raw) && st.stage != Content
    requires YearTag(Token(raw)).Some?
    ensures Step(t, st, raw) == Go(st.(info := st.info.(year := Some(DigitsValue(Token(raw)[1..5])))))
  {
  }

  /** Only the first lecturer tag counts: once the loop has set the
      lecturer, it keeps it to the end, early returns included. */
  lemma LecturerFirstWins(t: Tables, tags: seq<string>, n: nat)
    requires n <= |tags|
    requires var r := RunUpTo(StepOf(t), State(Content, EmptyInfo(tags), None), tags, n);
      r.Go? && r.st.info.lecturer.Some?
    ensures var r := RunUpTo(StepOf(t), State(Content, EmptyInfo(tags), None), tags, n);
      var last := RunUpTo(StepOf(t), State(Content, EmptyInfo(tags), None), tags, |tags|);
      (last.Go? ==> last.st.info.lecturer == r.st.info.lecturer) && (last.Stop? ==> last.info.lecturer == r.st.info.lecturer)
  {
    var start := State(Content, EmptyInfo(tags), None);
    var l := RunUpTo(StepOf(t), start, tags, n).st.info.lecturer;
    RunKeeps(StepOf(t), start, tags, n, |tags|, (st: State) => st.info.lecturer == l, (r: StepResult) => r.Stop? && r.info.lecturer == l);
  }

  /** A lecturer tag seen after the content tag, with no lecturer yet and no
      year in the token, sets the lecturer to the display name after its
      prefix. */
  lemma LecturerTagSetsLecturer(t: Tables, st: State, raw: string)
    requires IsTagLine(raw) && st.stage != Content && st.info.lecturer.None?
    requires YearTag(Token(raw)).None?
    requires LecturerOf(LStripChar(Token(raw), '#')).Some?
    ensures Step(t, st, raw).Go? && Step(t, st, raw).st.info.lecturer == LecturerOf(LStripChar(Token(raw), '#'))
  {
  }

  /** A lecture tag whose prefix is not an alias is an unknown alias. */
  lemma LectureTagUnknownPrefix(t: Tables, st: State, raw: string)
    requires IsTagLine(raw) && st.stage != Content && st.info.lectureNo.None?
    requires YearTag(Token(raw)).None?
    requires st.info.lecturer.Some? || LecturerOf(LStripChar(Token(raw), '#')).None?
    requires LectureTag(raw).Some? && GetAlias(t.aliases, LectureTag(raw).value.0).None?
    ensures Step(t, st, raw) == Stop(st.info, EAliasUnknown)
  {
  }

  /** A lecture tag with a known prefix sets the number (digits read as an
      integer, otherwise an ordinal word), the ordinal display for a non-zero
      number, and the stripped title when there is one. */
  lemma LectureTagSetsNumber(t: Tables, st: State, raw: string)
    requires IsTagLine(raw) && st.stage != Content && st.info.lectureNo.None?
    requires YearTag(Token(raw)).None?
    requires st.info.lecturer.Some? || LecturerOf(LStripChar(Token(raw), '#')).None?
    requires LectureTag(raw).Some? && GetAlias(t.aliases, LectureTag(raw).value.0).Some?
    ensures var (_, ident, title) := LectureTag(raw).value;
      var id := Strip(ident);
      Step(t, st, raw).Go? && Step(t, st, raw).st.stage == Done
      && (IsDecimal(id) ==> Step(t, st, raw).st.info.lectureNo == Some(DigitsValue(id)))
      && (!IsDecimal(id) ==> Step(t, st, raw).st.info.lectureNo == OrdinalNumber(id))
      && (title.Some? ==> Step(t, st, raw).st.info.title == Some(Strip(title.value)))
      && (title.None? ==> Step(t, st, raw).st.info.title == st.info.title)
  {
  }

  /** A tag line after the content tag that is neither a year, a lecturer nor
      a lecture tag must be a known alias. */
  lemma OtherTagMustBeAlias(t: Tables, st: State, raw: string)
    requires IsTagLine(raw) && st.stage != Content
    requires YearTag(Token(raw)).None?
    requires st.info.lecturer.Some? || LecturerOf(LStripChar(Token(raw), '#')).None?
    requires LectureTag(raw).None? || st.info.lectureNo.Some?
    ensures Step(t, st, raw) == (if GetAlias(t.aliases, LStripChar(Token(raw), '#')).None? then Stop(st.info, EAliasUnknown) else Go(st))
  {
    assert Step(t, st, raw) == MetaStep(t, st, raw);
  }

  /** Success means a content type was found, and a lecture number too when
      its item type requires one; an item type requiring a lecture without a
      number is `E-NO-SESSION`. */
  lemma SuccessMeansComplete(t: Tables, text: string)
    ensures Parse(t, text).1.None? ==> Parse(t, text).0.contentType.Some?
    ensures var tags := SplitTagLines(Clean(text));
      tags != [] && RunUpTo(StepOf(t), State(Content, EmptyInfo(tags), None), tags, |tags|).Go? ==>
        var st := RunUpTo(StepOf(t), State(Content, EmptyInfo(tags), None), tags, |tags|).st;
        (Parse(t, text).1.None? <==>
          st.info.contentType.Some? && !(st.itemType.Some? && st.itemType.value.requiresLecture && st.info.lectureNo.None?))
        && (Parse(t, text).1 == Some(ENoSession) <==>
          st.info.contentType.Some? && st.itemType.Some? && st.itemType.value.requiresLecture && st.info.lectureNo.None?)
  {
  }

  // ----- classify_hashtag ----------------------------------------------------

  /** What `classify_hashtag` returns: a card or section with the alias's
      normalised code, or `(None, None)`. */
  datatype Classified = Unclassified | CardTag(code: Option<string>) | SecTag(code: Option<string>)

  /** An alias with a mapping has an alias row. */
  lemma MappedAliasExists(aliases: seq<AliasRow>, mappings: seq<MappingRow>, alias: string)
    requires GetMappingsForAlias(aliases, mappings, alias) != []
    ensures GetAlias(aliases, alias).Some?
  {
    var v := GetMappingsForAlias(aliases, mappings, alias)[0];
    assert v in GetMappingsForAlias(aliases, mappings, alias);
    var m :| m in mappings && JoinsAlias(aliases, m, alias) && v == View(m, alias);
    var a :| a in aliases && a.id == m.aliasId.value && a.alias == alias;
  }

  /** `classify_hashtag(tag)`: the first mapping of the stripped tag's alias
      (after the one `#`) decides between a card and a section. */
  function ClassifyHashtag(aliases: seq<AliasRow>, mappings: seq<MappingRow>, tag: string): (r: Classified)
    ensures r != Unclassified ==> var token := Strip(tag);
      IsTagLine(token) && GetMappingsForAlias(aliases, mappings, token[1..]) != []
      && GetAlias(aliases, token[1..]).Some? && r.code == GetAlias(aliases, token[1..]).value.normalized
    ensures r.CardTag? <==> var token := Strip(tag);
      IsTagLine(token) && GetMappingsForAlias(aliases, mappings, token[1..]) != []
      && GetMappingsForAlias(aliases, mappings, token[1..])[0].targetKind == "card"
    ensures r.SecTag? <==> var token := Strip(tag);
      IsTagLine(token) && GetMappingsForAlias(aliases, mappings, token[1..]) != []
      && GetMappingsForAlias(aliases, mappings, token[1..])[0].targetKind == "section"
  {
    var token := Strip(tag);
    if !IsTagLine(token) then Unclassified
    else
      var alias := token[1..];
      var rows := GetMappingsForAlias(aliases, mappings, alias);
      if rows == [] then Unclassified
      else
        MappedAliasExists(aliases, mappings, alias);
        var code := GetAlias(aliases, alias).value.normalized;
        if rows[0].targetKind == "card" then CardTag(code)
        else if rows[0].targetKind == "section" then SecTag(code)
        else Unclassified
  }
}
