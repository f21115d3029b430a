/** `parse_context`: the subject and section a message belongs to, read from
    the binding of its forum thread or, outside a thread, from its hashtags. */
module Context {
  import opened Wrappers
  import opened Text
  import opened Seqs
  import HashtagRepo
  import Linking
  import HashtagParser

  /** Where the context came from: `"topic"` or `"hashtags"`. */
  datatype Source = Topic | Hashtags

  datatype ContextResult = ContextResult(subjectId: int, sectionId: Option<int>, source: Source)

  /** The exceptions `parse_context` lets escape: `IndexError` from
      `raw.split()[0]` on a blank tag, and the `AttributeError` of calling a
      helper the linking repository does not define. */
  datatype Crash = IndexError | AttributeError

  /** The tables the context is read from. */
  datatype Tables = Tables(aliases: seq<HashtagRepo.AliasRow>, mappings: seq<HashtagRepo.MappingRow>,
                           topics: seq<Linking.TopicRow>)

  /** The lookup of a thread's binding: the subject and section of the topic
      row of that group and thread, or `None` where `RepoNotFound` is
      raised. */
  function BindingByTopic(topics: seq<Linking.TopicRow>, groupId: int, topicId: int): (r: Option<(int, Option<int>)>)
    ensures r.None? <==> forall t :: t in topics ==> !(t.groupId == groupId && t.topicId == topicId)
    ensures r.Some? ==>
      exists t :: t in topics && t.groupId == groupId && t.topicId == topicId && r.value == (t.subjectId, t.sectionId)
  {
    match Linking.GetTopic(topics, groupId, topicId)
    case None => None
    case Some(t) => Some((t.subjectId, t.sectionId))
  }

  /** The alias a tag names: its first word without leading `#`s, or `None`
      for a blank tag. */
  function TagToken(raw: string): (r: Option<string>)
    ensures r.None? <==> AllSpace(raw)
    ensures r.Some? ==> NoSpace(r.value) && (r.value == [] || r.value[0] != '#')
  {
    match FirstWord(raw)
    case None => None
    case Some(w) => Some(LStripChar(w, '#'))
  }

  /** The (kind, id) targets a tag's alias maps to, in mapping order. */
  function TagTargets(t: Tables, raw: string): seq<(string, int)> {
    match TagToken(raw)
    case None => []
    case Some(token) => HashtagRepo.LookupTargets(t.aliases, t.mappings, token)
  }

  /** The targets of all tags, tag after tag. */
  function AllTargets(t: Tables, tags: seq<string>): seq<(string, int)> {
    if tags == [] then [] else TagTargets(t, tags[0]) + AllTargets(t, tags[1..])
  }

  function IsKind(kind: string): ((string, int)) -> bool {
    (x: (string, int)) => x.0 == kind
  }

  /** The id of the first target of that kind. */
  function FirstOfKind(targets: seq<(string, int)>, kind: string): (r: Option<int>)
    ensures r.None? <==> forall i :: 0 <= i < |targets| ==> targets[i].0 != kind
    ensures r.Some? ==>
      exists i :: (0 <= i < |targets| && targets[i] == (kind, r.value)
        && forall j :: 0 <= j < i ==> targets[j].0 != kind)
  {
    var f := First(targets, IsKind(kind));
    assert f.None? ==> forall i :: 0 <= i < |targets| ==> targets[i] in targets && !IsKind(kind)(targets[i]);
    if f.Some? then Some(f.value.1) else None
  }

  function Or(a: Option<int>, b: Option<int>): Option<int> {
    if a.Some? then a else b
  }

  /** One pass of the inner loop: a subject target fills the subject if it
      is still missing, a section target the section. */
  function Pick(acc: (Option<int>, Option<int>), target: (string, int)): (Option<int>, Option<int>) {
    if target.0 == "subject" && acc.0.None? then (Some(target.1), acc.1)
    else if target.0 == "section" && acc.1.None? then (acc.0, Some(target.1))
    else acc
  }

  /** The inner loop over the targets of one tag. */
  function Absorb(acc: (Option<int>, Option<int>), targets: seq<(string, int)>): (Option<int>, Option<int>) {
    if targets == [] then acc
    else Pick(Absorb(acc, targets[..|targets| - 1]), targets[|targets| - 1])
  }

  /** One more target read by the inner loop. */
  lemma AbsorbPrefix(acc: (Option<int>, Option<int>), targets: seq<(string, int)>, j: nat)
    requires j < |targets|
    ensures Absorb(acc, targets[..j + 1]) == Pick(Absorb(acc, targets[..j]), targets[j])
  {
    assert targets[..j + 1][..j] == targets[..j];
  }

  /** The inner loop keeps what was found and fills what is missing with the
      first target of each kind. */
  lemma {:induction false} AbsorbIsFirst(acc: (Option<int>, Option<int>), targets: seq<(string, int)>)
    ensures Absorb(acc, targets) == (Or(acc.0, FirstOfKind(targets, "subject")), Or(acc.1, FirstOfKind(targets, "section")))
  {
    if targets != [] {
      var init := targets[..|targets| - 1];
      var last := targets[|targets| - 1];
      assert targets == init + [last];
      AbsorbIsFirst(acc, init);
      FirstAppend(init, last, IsKind("subject"));
      FirstAppend(init, last, IsKind("section"));
    }
  }

  function Complete(acc: (Option<int>, Option<int>)): bool {
    acc.0.Some? && acc.1.Some?
  }

  /** The outer loop from a given state: each tag's targets are absorbed, the
      scan stops once both are found, and a blank tag met before then
      raises `IndexError`. */
  function ScanFrom(t: Tables, tags: seq<string>, acc: (Option<int>, Option<int>)): (r: Result<(Option<int>, Option<int>), Crash>)
    ensures r.Err? ==> r.error == IndexError && exists i :: 0 <= i < |tags| && AllSpace(tags[i])
  {
    if tags == [] then Ok(acc)
    else if AllSpace(tags[0]) then Err(IndexError)
    else
      var next := Absorb(acc, TagTargets(t, tags[0]));
      if Complete(next) then Ok(next)
      else
        var r := ScanFrom(t, tags[1..], next);
        assert r.Err? ==> exists i :: 1 <= i < |tags| && AllSpace(tags[i]);
        r
  }

  /** One turn of the outer loop, on the tags from `i` on. */
  lemma ScanStep(t: Tables, tags: seq<string>, i: nat, acc: (Option<int>, Option<int>))
    requires i < |tags|
    ensures ScanFrom(t, tags[i..], acc)
      == if AllSpace(tags[i]) then Err(IndexError)
         else if Complete(Absorb(acc, TagTargets(t, tags[i]))) then Ok(Absorb(acc, TagTargets(t, tags[i])))
         else ScanFrom(t, tags[i + 1..], Absorb(acc, TagTargets(t, tags[i])))
  {
    assert tags[i..][0] == tags[i] && tags[i..][1..] == tags[i + 1..];
  }

  /** `parse_context(group_id, tg_topic_id, tags)`, reading the thread's
      binding as `BindingByTopic` does. */
  function ParseContextSpec(t: Tables, groupId: int, topicId: Option<int>, tags: seq<string>)
    : (r: Result<(Option<ContextResult>, Option<HashtagParser.ParseError>), Crash>)
    ensures r.Ok? ==> (r.value.0.None? <==> r.value.1 == Some(HashtagParser.ENoContext)) && (r.value.0.Some? <==> r.value.1.None?)
    ensures topicId.Some? ==> r.Ok?
  {
    if topicId.Some? then
      match BindingByTopic(t.topics, groupId, topicId.value)
      case None => Ok((None, Some(HashtagParser.ENoContext)))
      case Some((subject, section)) => Ok((Some(ContextResult(subject, section, Topic)), None))
    else
      match ScanFrom(t, tags, (None, None))
      case Err(e) => Err(e)
      case Ok((subject, section)) =>
        if subject.None? || section.None? then Ok((None, Some(HashtagParser.ENoContext)))
        else Ok((Some(ContextResult(subject.value, section, Hashtags)), None))
  }

  /** The first target of a kind in a concatenation is the first in its
      first part, or else the first in its second. */
  lemma FirstOfKindConcat(a: seq<(string, int)>, b: seq<(string, int)>, kind: string)
    ensures FirstOfKind(a + b, kind) == Or(FirstOfKind(a, kind), FirstOfKind(b, kind))
  {
    FirstConcat(a, b, IsKind(kind));
  }

  /** The scan finds the first subject target and the first section target
      over all tags, as if every tag were read. */
  lemma {:induction false} ScanIsFirstTargets(t: Tables, tags: seq<string>, acc: (Option<int>, Option<int>))
    requires forall i :: 0 <= i < |tags| ==> !AllSpace(tags[i])
    ensures ScanFrom(t, tags, acc)
      == Ok((Or(acc.0, FirstOfKind(AllTargets(t, tags), "subject")), Or(acc.1, FirstOfKind(AllTargets(t, tags), "section"))))
  {
    if tags != [] {
      var head := TagTargets(t, tags[0]);
      var rest := AllTargets(t, tags[1..]);
      assert AllTargets(t, tags) == head + rest;
      FirstOfKindConcat(head, rest, "subject");
      FirstOfKindConcat(head, rest, "section");
      AbsorbIsFirst(acc, head);
      var next := Absorb(acc, head);
      if !Complete(next) {
        ScanIsFirstTargets(t, tags[1..], next);
      }
    }
  }

  /** Once a subject and a section are found, the tags after them are not
      read: appending any tags, blank ones included, changes nothing. */
  lemma {:induction false} ScanStopsWhenComplete(t: Tables, tags: seq<string>, acc: (Option<int>, Option<int>), more: seq<string>)
    requires !Complete(acc)
    requires ScanFrom(t, tags, acc).Ok? && Complete(ScanFrom(t, tags, acc).value)
    ensures ScanFrom(t, tags + more, acc) == ScanFrom(t, tags, acc)
  {
    assert tags != [];
    assert (tags + more)[0] == tags[0];
    var next := Absorb(acc, TagTargets(t, tags[0]));
    if !Complete(next) {
      assert (tags + more)[1..] == tags[1..] + more;
      ScanStopsWhenComplete(t, tags[1..], next, more);
    }
  }

  /** Outside a thread, the context is found exactly when some tag maps to a
      subject and some tag maps to a section; it then holds the first of
      each, and otherwise the error is `E-NO-CONTEXT`. */
  lemma HashtagContext(t: Tables, groupId: int, tags: seq<string>)
    requires forall i :: 0 <= i < |tags| ==> !AllSpace(tags[i])
    ensures var subject := FirstOfKind(AllTargets(t, tags), "subject");
      var section := FirstOfKind(AllTargets(t, tags), "section");
      ParseContextSpec(t, groupId, None, tags)
        == if subject.Some? && section.Some? then Ok((Some(ContextResult(subject.value, section, Hashtags)), None))
           else Ok((None, Some(HashtagParser.ENoContext)))
  {
    ScanIsFirstTargets(t, tags, (None, None));
  }

  /** In a thread, the context is the thread's binding with source `topic`,
      whatever the tags say, or `E-NO-CONTEXT` when the thread is not bound. */
  lemma TopicContext(t: Tables, groupId: int, topicId: int, tags: seq<string>)
    ensures var b := Linking.GetTopic(t.topics, groupId, topicId);
      ParseContextSpec(t, groupId, Some(topicId), tags)
        == if b.Some? then Ok((Some(ContextResult(b.value.subjectId, b.value.sectionId, Topic)), None))
           else Ok((None, Some(HashtagParser.ENoContext)))
  {
  }

  /** `parse_context` as written: with a thread id it calls
      `linking.get_binding_by_topic`, which the linking repository does not
      define, so `AttributeError` escapes (it is not the `RepoNotFound` the
      handler catches). */
  function ParseContextAsWritten(t: Tables, groupId: int, topicId: Option<int>, tags: seq<string>)
    : (r: Result<(Option<ContextResult>, Option<HashtagParser.ParseError>), Crash>)
    ensures topicId.None? ==> r == ParseContextSpec(t, groupId, topicId, tags)
  {
    if topicId.Some? then Err(AttributeError) else ParseContextSpec(t, groupId, topicId, tags)
  }

  /** A group's thread 5 bound to subject 1 and section 2, as in the
      repository's own test, crashes as written, and gives the topic context
      once the lookup reads the topic row. */
  lemma TopicLookupMissing(groupId: int, tags: seq<string>)
    ensures var t := Tables([], [], [Linking.TopicRow(1, groupId, 5, 1, Some(2), None)]);
      ParseContextAsWritten(t, groupId, Some(5), tags) == Err(AttributeError)
      && ParseContextSpec(t, groupId, Some(5), tags) == Ok((Some(ContextResult(1, Some(2), Topic)), None))
  {
    var t := Tables([], [], [Linking.TopicRow(1, groupId, 5, 1, Some(2), None)]);
    assert Linking.TopicIs(groupId, 5)(t.topics[0]);
  }

  /** The loop of `parse_context`, proved to compute `ParseContextSpec`. */
  method ParseContext(t: Tables, groupId: int, topicId: Option<int>, tags: seq<string>)
    returns (r: Result<(Option<ContextResult>, Option<HashtagParser.ParseError>), Crash>)
    ensures r == ParseContextSpec(t, groupId, topicId, tags)
  {
    if topicId.Some? {
      var binding := BindingByTopic(t.topics, groupId, topicId.value);
      if binding.None? {
        return Ok((None, Some(HashtagParser.ENoContext)));
      }
      return Ok((Some(ContextResult(binding.value.0, binding.value.1, Topic)), None));
    }
    var subject: Option<int> := None;
    var section: Option<int> := None;
    var i := 0;
    while i < |tags|
      invariant 0 <= i <= |tags|
      invariant !Complete((subject, section))
      invariant ScanFrom(t, tags, (None, None)) == ScanFrom(t, tags[i..], (subject, section))
    {
      var token := TagToken(tags[i]);
      if token.None? {
        return Err(IndexError);
      }
      var targets := HashtagRepo.LookupTargets(t.aliases, t.mappings, token.value);
      assert targets == TagTargets(t, tags[i]);
      ghost var before := (subject, section);
      ScanStep(t, tags, i, before);
      var j := 0;
      while j < |targets|
        invariant 0 <= j <= |targets|
        invariant (subject, section) == Absorb(before, targets[..j])
      {
        AbsorbPrefix(before, targets, j);
        var (kind, ident) := targets[j];
        if kind == "subject" && subject.None? {
          subject := Some(ident);
        } else if kind == "section" && section.None? {
          section := Some(ident);
        }
        j := j + 1;
      }
      assert targets[..j] == targets;
      if subject.Some? && section.Some? {
        break;
      }
      i := i + 1;
    }
    assert ScanFrom(t, tags, (None, None)) == Ok((subject, section)) by {
      if i == |tags| {
        assert tags[i..] == [];
      }
    }
    if subject.None? || section.None? {
      return Ok((None, Some(HashtagParser.ENoContext)));
    }
    return Ok((Some(ContextResult(subject.value, section, Hashtags)), None));
  }
}
