/** The reply-keyboard navigation state kept in `user_data["nav"]`: a stack
    of `(type, caption)` entries, one per level the user has chosen, and the
    ids chosen at each level. Choosing a level again replaces its entry and
    drops everything after it. */
module NavState {
  import opened Wrappers

  /** A stack entry: the node type and the caption shown for it. */
  type Entry = (string, string)

  /** `TYPE_TO_KEYS.get(node_type, [])`: the data keys a node type stores. */
  function TypeKeys(t: string): (r: seq<string>)
    ensures |r| <= 1
  {
    if t == "level" then ["level_id"]
    else if t == "term" then ["term_id"]
    else if t == "subject" then ["subject_id"]
    else if t == "section" then ["section"]
    else if t == "year" then ["year_id"]
    else if t == "lecturer" then ["lecturer_id"]
    else if t == "lecture" then ["lecture_title"]
    else []
  }

  /** The keys `go_subject_list` drops: everything chosen below the term. */
  const BelowTermKeys: seq<string> := ["subject_id", "section", "year_id", "lecturer_id", "lecture_title", "category"]

  /** The first entry of type `t`. */
  function IndexOfType(s: seq<Entry>, t: string): (r: Option<nat>)
    ensures r.None? <==> forall i :: 0 <= i < |s| ==> s[i].0 != t
    ensures r.Some? ==> r.value < |s| && s[r.value].0 == t && forall j :: 0 <= j < r.value ==> s[j].0 != t
  {
    if s == [] then None
    else if s[0].0 == t then Some(0)
    else
      match IndexOfType(s[1..], t)
      case None => None
      case Some(i) => Some(i + 1)
  }

  /** `_upsert_stack`: the first entry of type `t` relabelled, or a new
      entry at the top. */
  function Upserted(s: seq<Entry>, t: string, caption: string): seq<Entry> {
    match IndexOfType(s, t)
    case None => s + [(t, caption)]
    case Some(i) => s[i := (t, caption)]
  }

  /** `_truncate_after`: the stack up to the first entry of type `t`, the
      whole stack when there is none. */
  function TruncatedAfter(s: seq<Entry>, t: string): seq<Entry> {
    match IndexOfType(s, t)
    case None => s
    case Some(i) => s[..i + 1]
  }

  /** An upsert followed by a truncation, as every setter does. */
  function Viewed(s: seq<Entry>, t: string, caption: string): seq<Entry> {
    TruncatedAfter(Upserted(s, t, caption), t)
  }

  /** The entries below the first of type `t`: all of them when there is
      none. */
  function Before(s: seq<Entry>, t: string): (r: seq<Entry>)
    ensures forall i :: 0 <= i < |r| ==> r[i].0 != t
    ensures r <= s
  {
    match IndexOfType(s, t)
    case None => s
    case Some(i) => s[..i]
  }

  /** The keys of a list, as a set. */
  function KeySet(keys: seq<string>): set<string> {
    set k | k in keys
  }

  /** No two entries of the same type. */
  predicate UniqueTypes(s: seq<Entry>) {
    forall i, j :: 0 <= i < j < |s| ==> s[i].0 != s[j].0
  }

  /** The caption of the last entry of type `t`, as `get_labels` finds it. */
  function LabelOf(s: seq<Entry>, t: string): Option<string> {
    if s == [] then None
    else if s[|s| - 1].0 == t then Some(s[|s| - 1].1)
    else LabelOf(s[..|s| - 1], t)
  }

  lemma IndexOfTypeIs(s: seq<Entry>, t: string, i: nat)
    requires i < |s| && s[i].0 == t
    requires forall j :: 0 <= j < i ==> s[j].0 != t
    ensures IndexOfType(s, t) == Some(i)
  {
    var r := IndexOfType(s, t);
    assert r.Some?;
    assert !(r.value < i);
  }

  /** Choosing type `t` with a caption keeps the entries below the first `t`
      and puts `(t, caption)` on top of them: whatever was at or above that
      level before is gone. */
  lemma ViewedShape(s: seq<Entry>, t: string, caption: string)
    ensures Viewed(s, t, caption) == Before(s, t) + [(t, caption)]
  {
    var u := Upserted(s, t, caption);
    match IndexOfType(s, t)
    case None =>
      IndexOfTypeIs(u, t, |s|);
      assert u[..|s| + 1] == u;
    case Some(i) =>
      IndexOfTypeIs(u, t, i);
      assert u[..i + 1] == s[..i] + [(t, caption)];
  }

  /** Choosing the same entry twice is the same as choosing it once. */
  lemma ViewedIdempotent(s: seq<Entry>, t: string, caption: string)
    ensures Viewed(Viewed(s, t, caption), t, caption) == Viewed(s, t, caption)
  {
    var v := Viewed(s, t, caption);
    ViewedShape(s, t, caption);
    ViewedShape(v, t, caption);
    IndexOfTypeIs(v, t, |v| - 1);
    assert v[..|v| - 1] == Before(s, t);
  }

  /** Truncating twice after the same type is truncating once. */
  lemma TruncateIdempotent(s: seq<Entry>, t: string)
    ensures TruncatedAfter(TruncatedAfter(s, t), t) == TruncatedAfter(s, t)
  {
    match IndexOfType(s, t)
    case None =>
    case Some(i) =>
      IndexOfTypeIs(s[..i + 1], t, i);
  }

  /** A stack with one entry per type keeps that property when a level is
      chosen. */
  lemma ViewedKeepsUnique(s: seq<Entry>, t: string, caption: string)
    requires UniqueTypes(s)
    ensures UniqueTypes(Viewed(s, t, caption))
  {
    ViewedShape(s, t, caption);
    var b := Before(s, t);
    var v := b + [(t, caption)];
    forall i, j | 0 <= i < j < |v| ensures v[i].0 != v[j].0 {
      if j < |b| {
        assert v[i] == s[i] && v[j] == s[j];
      }
    }
  }

  /** After choosing `(t, caption)` the labels read back give `caption` for
      `t`. */
  lemma ViewedLabel(s: seq<Entry>, t: string, caption: string)
    ensures LabelOf(Viewed(s, t, caption), t) == Some(caption)
  {
    ViewedShape(s, t, caption);
  }

  /** Going back from a level just chosen leaves the entries below it. */
  lemma ViewedThenBack(s: seq<Entry>, t: string, caption: string)
    ensures var v := Viewed(s, t, caption); |v| > 0 && v[..|v| - 1] == Before(s, t) && v[|v| - 1].0 == t
  {
    ViewedShape(s, t, caption);
    var v := Viewed(s, t, caption);
    assert v[..|v| - 1] == Before(s, t);
  }

  /** The stored value under `nav`: a dict, with or without its `stack` and
      `data` entries, or something else. */
  datatype StoredNav = NavDict(stack: Option<seq<Entry>>, data: Option<map<string, Scalar>>) | NotADict

  /** `NavigationState(user_data)`. */
  class NavigationState {
    var stack: seq<Entry>
    var data: map<string, Scalar>

    /** The stored dict is reused when it has both entries; otherwise a new
        empty state replaces it. */
    constructor (stored: Option<StoredNav>)
      ensures stored.Some? && stored.value.NavDict? && stored.value.stack.Some? && stored.value.data.Some? ==>
        stack == stored.value.stack.value && data == stored.value.data.value
      ensures !(stored.Some? && stored.value.NavDict? && stored.value.stack.Some? && stored.value.data.Some?) ==>
        stack == [] && data == map[]
    {
      if stored.Some? && stored.value.NavDict? && stored.value.stack.Some? && stored.value.data.Some? {
        stack := stored.value.stack.value;
        data := stored.value.data.value;
      } else {
        stack := [];
        data := map[];
      }
    }

    method UpsertStack(t: string, caption: string)
      modifies this
      ensures stack == Upserted(old(stack), t, caption) && data == old(data)
    {
      var i := 0;
      while i < |stack|
        invariant 0 <= i <= |stack| && stack == old(stack) && data == old(data)
        invariant forall j :: 0 <= j < i ==> stack[j].0 != t
      {
        if stack[i].0 == t {
          IndexOfTypeIs(stack, t, i);
          stack := stack[i := (t, caption)];
          return;
        }
        i := i + 1;
      }
      stack := stack + [(t, caption)];
    }

    method TruncateAfter(t: string)
      modifies this
      ensures stack == TruncatedAfter(old(stack), t) && data == old(data)
    {
      var i := 0;
      while i < |stack|
        invariant 0 <= i <= |stack| && stack == old(stack) && data == old(data)
        invariant forall j :: 0 <= j < i ==> stack[j].0 != t
      {
        if stack[i].0 == t {
          IndexOfTypeIs(stack, t, i);
          stack := stack[..i + 1];
          return;
        }
        i := i + 1;
      }
    }

    /** `data.pop(key, None)` for each key in turn. */
    method DropKeys(keys: seq<string>)
      modifies this
      ensures stack == old(stack)
      ensures data == old(data) - KeySet(keys)
    {
      for i := 0 to |keys|
        invariant stack == old(stack)
        invariant data == old(data) - KeySet(keys[..i])
      {
        assert KeySet(keys[..i + 1]) == KeySet(keys[..i]) + {keys[i]} by {
          assert keys[..i + 1] == keys[..i] + [keys[i]];
        }
        data := data - {keys[i]};
      }
      assert keys[..|keys|] == keys;
    }

    method Reset()
      modifies this
      ensures stack == [] && data == map[]
    {
      stack := [];
      data := map[];
    }

    method BackToLevels()
      modifies this
      ensures stack == [] && data == map[]
    {
      Reset();
    }

    /** The chosen level and term ids, when chosen. */
    function GetIds(): (r: (Option<Scalar>, Option<Scalar>))
      reads this
      ensures r.0.Some? <==> "level_id" in data
      ensures r.1.Some? <==> "term_id" in data
      ensures r.0.Some? ==> r.0.value == data["level_id"]
      ensures r.1.Some? ==> r.1.value == data["term_id"]
    {
      (if "level_id" in data then Some(data["level_id"]) else None,
       if "term_id" in data then Some(data["term_id"]) else None)
    }

    /** The labels of the level and term entries: a loop in which a later
        entry overrides an earlier one. */
    method GetLabels() returns (level: Option<string>, term: Option<string>)
      ensures level == LabelOf(stack, "level") && term == LabelOf(stack, "term")
    {
      level, term := None, None;
      for i := 0 to |stack|
        invariant level == LabelOf(stack[..i], "level") && term == LabelOf(stack[..i], "term")
      {
        assert stack[..i + 1][..i] == stack[..i];
        if stack[i].0 == "level" {
          level := Some(stack[i].1);
        } else if stack[i].0 == "term" {
          term := Some(stack[i].1);
        }
      }
      assert stack[..|stack|] == stack;
    }

    /** The top entry removed with the key its type stores; nothing on an
        empty stack. */
    method BackOne()
      modifies this
      ensures old(stack) == [] ==> stack == [] && data == old(data)
      ensures old(stack) != [] ==>
        stack == old(stack)[..|old(stack)| - 1]
        && data == old(data) - KeySet(TypeKeys(old(stack)[|old(stack)| - 1].0))
    {
      if stack == [] {
        return;
      }
      var top := stack[|stack| - 1];
      stack := stack[..|stack| - 1];
      DropKeys(TypeKeys(top.0));
    }

    method PushView(t: string, caption: string)
      modifies this
      ensures stack == Viewed(old(stack), t, caption) && data == old(data)
    {
      UpsertStack(t, caption);
      TruncateAfter(t);
    }

    /** What each setter does: the entry chosen, its id stored, the stack cut
        after it. */
    method Choose(t: string, key: string, caption: string, value: Scalar)
      modifies this
      ensures stack == Viewed(old(stack), t, caption) && data == old(data)[key := value]
    {
      UpsertStack(t, caption);
      data := data[key := value];
      TruncateAfter(t);
    }

    method SetLevel(caption: string, levelId: Scalar)
      modifies this
      ensures stack == Viewed(old(stack), "level", caption) && data == old(data)["level_id" := levelId]
    {
      Choose("level", "level_id", caption, levelId);
    }

    method SetTerm(caption: string, termId: Scalar)
      modifies this
      ensures stack == Viewed(old(stack), "term", caption) && data == old(data)["term_id" := termId]
    {
      Choose("term", "term_id", caption, termId);
    }

    method SetSubject(caption: string, subjectId: int)
      modifies this
      ensures stack == Viewed(old(stack), "subject", caption) && data == old(data)["subject_id" := IntVal(subjectId)]
    {
      Choose("subject", "subject_id", caption, IntVal(subjectId));
    }

    method SetSection(caption: string, section: string)
      modifies this
      ensures stack == Viewed(old(stack), "section", caption) && data == old(data)["section" := TextVal(section)]
    {
      Choose("section", "section", caption, TextVal(section));
    }

    method SetYear(caption: string, yearId: int)
      modifies this
      ensures stack == Viewed(old(stack), "year", caption) && data == old(data)["year_id" := IntVal(yearId)]
    {
      Choose("year", "year_id", caption, IntVal(yearId));
    }

    method SetLecturer(caption: string, lecturerId: int)
      modifies this
      ensures stack == Viewed(old(stack), "lecturer", caption) && data == old(data)["lecturer_id" := IntVal(lecturerId)]
    {
      Choose("lecturer", "lecturer_id", caption, IntVal(lecturerId));
    }

    /** The lecture's title is both its caption and its stored value. */
    method SetLecture(title: string)
      modifies this
      ensures stack == Viewed(old(stack), "lecture", title) && data == old(data)["lecture_title" := TextVal(title)]
    {
      Choose("lecture", "lecture_title", title, TextVal(title));
    }

    /** A fresh state showing the list of levels. */
    method GoLevelsList()
      modifies this
      ensures stack == [("level", "")] && data == map[]
    {
      Reset();
      UpsertStack("level", "");
      TruncateAfter("level");
      IndexOfTypeIs([("level", "")], "level", 0);
    }

    /** Back to the term's subject list: the stack cut after the term, the
        choices below the term forgotten, and the subject list on top. */
    method GoSubjectList()
      modifies this
      ensures stack == Viewed(TruncatedAfter(old(stack), "term"), "subject_list", "")
      ensures data == old(data) - KeySet(BelowTermKeys)
    {
      TruncateAfter("term");
      DropKeys(BelowTermKeys);
      UpsertStack("subject_list", "");
      TruncateAfter("subject_list");
    }
  }

  /** Choosing a subject stores its id and its caption reads back; leaving
      it again with `back_one` restores the stack below it and forgets the
      id. */
  method ChooseThenBack(s: NavigationState, caption: string, subjectId: int)
    modifies s
    ensures s.stack == Before(old(s.stack), "subject")
    ensures s.data == old(s.data) - {"subject_id"}
  {
    s.SetSubject(caption, subjectId);
    ViewedThenBack(old(s.stack), "subject", caption);
    s.BackOne();
    assert KeySet(TypeKeys("subject")) == {"subject_id"};
  }
}
