/** Groups (Telegram chats) and topics (forum threads of a group) bound to
    subjects: the repository helpers `upsert_group`, `get_group`,
    `upsert_topic` and `get_topic`, and the older helpers
    `get_group_info`, `upsert_group`, `get_group_id_by_chat`, `get_binding`,
    `bind` and `cleanup_orphan_topics`. One store holds both tables. */
module Linking {
  import opened Wrappers
  import opened Seqs
  import Subjects

  /** A row of `groups`; `tg_chat_id` is unique. */
  datatype GroupRow = GroupRow(id: int, chatId: int, title: string,
                               levelId: Option<int>, termId: Option<int>, sectionId: Option<int>)

  /** A row of `topics`; `(group_id, tg_topic_id)` is unique. The repository
      helpers write `section_id`, `bind` writes the text column `section`. */
  datatype TopicRow = TopicRow(id: int, groupId: int, topicId: int, subjectId: int,
                               sectionId: Option<int>, section: Option<string>)

  /** What `get_binding` returns: the subject's id and name and the section. */
  datatype Binding = Binding(subjectId: int, subjectName: string, section: Option<string>)

  /** The `ValueError("group not found")` of `bind`. */
  datatype BindError = GroupNotFound

  ghost predicate GroupsValid(groups: seq<GroupRow>, nextId: int) {
    KeysDistinct(groups, (g: GroupRow) => g.id) && KeysDistinct(groups, (g: GroupRow) => g.chatId)
    && forall g :: g in groups ==> g.id < nextId
  }

  ghost predicate TopicsValid(topics: seq<TopicRow>, nextId: int) {
    KeysDistinct(topics, (t: TopicRow) => t.id) && KeysDistinct(topics, (t: TopicRow) => (t.groupId, t.topicId))
    && forall t :: t in topics ==> t.id < nextId
  }

  function ChatIs(chat: int): GroupRow -> bool {
    (g: GroupRow) => g.chatId == chat
  }

  function TopicIs(groupId: int, topicId: int): TopicRow -> bool {
    (t: TopicRow) => t.groupId == groupId && t.topicId == topicId
  }

  /** `get_group(tg_chat_id)`: the group row of that chat, if any. */
  function GetGroup(groups: seq<GroupRow>, chat: int): (r: Option<GroupRow>)
    ensures r.Some? ==> r.value in groups && r.value.chatId == chat
    ensures r.None? <==> forall g :: g in groups ==> g.chatId != chat
  {
    First(groups, ChatIs(chat))
  }

  /** With one row per chat, the group found is the chat's only row. */
  lemma GetGroupUnique(groups: seq<GroupRow>, nextId: int, g: GroupRow)
    requires GroupsValid(groups, nextId)
    requires g in groups
    ensures GetGroup(groups, g.chatId) == Some(g)
  {
    var r := GetGroup(groups, g.chatId);
    KeyIdentifies(groups, (x: GroupRow) => x.chatId, r.value, g);
  }

  /** `get_group_info(tg_chat_id)`: the group's level and term. */
  function GetGroupInfo(groups: seq<GroupRow>, chat: int): (r: Option<(Option<int>, Option<int>)>)
    ensures r.None? <==> forall g :: g in groups ==> g.chatId != chat
    ensures r.Some? ==> exists g :: g in groups && g.chatId == chat && r.value == (g.levelId, g.termId)
  {
    match GetGroup(groups, chat)
    case None => None
    case Some(g) => Some((g.levelId, g.termId))
  }

  /** `get_group_id_by_chat(tg_chat_id)`: the group's id, level and term. */
  function GetGroupIdByChat(groups: seq<GroupRow>, chat: int): (r: Option<(int, Option<int>, Option<int>)>)
    ensures r.None? <==> forall g :: g in groups ==> g.chatId != chat
    ensures r.Some? ==> exists g :: g in groups && g.chatId == chat && r.value == (g.id, g.levelId, g.termId)
  {
    match GetGroup(groups, chat)
    case None => None
    case Some(g) => Some((g.id, g.levelId, g.termId))
  }

  /** `get_topic(group_id, tg_topic_id)`: the topic row, if any. */
  function GetTopic(topics: seq<TopicRow>, groupId: int, topicId: int): (r: Option<TopicRow>)
    ensures r.Some? ==> r.value in topics && r.value.groupId == groupId && r.value.topicId == topicId
    ensures r.None? <==> forall t :: t in topics ==> !(t.groupId == groupId && t.topicId == topicId)
  {
    First(topics, TopicIs(groupId, topicId))
  }

  /** A topic row takes part in the join of `get_binding` for that chat and
      thread: its group is the chat's group and its subject exists. */
  predicate Bound(groups: seq<GroupRow>, subjects: seq<Subjects.SubjectRow>, chat: int, topicId: int, t: TopicRow) {
    t.topicId == topicId
    && (exists g :: g in groups && g.id == t.groupId && g.chatId == chat)
    && (exists s :: s in subjects && s.id == t.subjectId)
  }

  /** `get_binding(tg_chat_id, tg_topic_id)`: a binding exactly when the
      topic, its group and its subject all exist; it carries the topic's
      subject, that subject's name and the topic's section text. */
  function GetBinding(groups: seq<GroupRow>, topics: seq<TopicRow>, subjects: seq<Subjects.SubjectRow>,
                      chat: int, topicId: int): (r: Option<Binding>)
    ensures r.Some? <==> exists t :: t in topics && Bound(groups, subjects, chat, topicId, t)
    ensures r.Some? ==>
      exists t, s :: (t in topics && s in subjects && Bound(groups, subjects, chat, topicId, t)
        && s.id == t.subjectId && r.value == Binding(t.subjectId, s.name, t.section))
  {
    match First(topics, (t: TopicRow) => Bound(groups, subjects, chat, topicId, t))
    case None => None
    case Some(t) =>
      var s := First(subjects, (s: Subjects.SubjectRow) => s.id == t.subjectId);
      assert s.Some?;
      Some(Binding(t.subjectId, s.value.name, t.section))
  }

  /** A topic row that `cleanup_orphan_topics` keeps: its group and its
      subject both exist. */
  predicate Attached(groups: seq<GroupRow>, subjects: seq<Subjects.SubjectRow>, t: TopicRow) {
    (exists g :: g in groups && g.id == t.groupId) && (exists s :: s in subjects && s.id == t.subjectId)
  }

  function Attach(groups: seq<GroupRow>, subjects: seq<Subjects.SubjectRow>): TopicRow -> bool {
    (t: TopicRow) => Attached(groups, subjects, t)
  }

  /** The `DO UPDATE SET` of the repository `upsert_group`: every optional
      column is overwritten, with `None` when it was not passed. */
  function SetGroup(title: string, level: Option<int>, term: Option<int>, section: Option<int>): GroupRow -> GroupRow {
    (g: GroupRow) => g.(title := title, levelId := level, termId := term, sectionId := section)
  }

  /** The `DO UPDATE SET` of the older `upsert_group`: the section is kept. */
  function SetGroupInfo(title: string, level: int, term: int): GroupRow -> GroupRow {
    (g: GroupRow) => g.(title := title, levelId := Some(level), termId := Some(term))
  }

  /** The `DO UPDATE SET` of `upsert_topic`. */
  function SetTopic(subjectId: int, sectionId: Option<int>): TopicRow -> TopicRow {
    (t: TopicRow) => t.(subjectId := subjectId, sectionId := sectionId)
  }

  /** The `DO UPDATE SET` of `bind`. */
  function SetBinding(subjectId: int, section: string): TopicRow -> TopicRow {
    (t: TopicRow) => t.(subjectId := subjectId, section := Some(section))
  }

  /** A binding written by `bind` on valid tables reads back through
      `get_binding` once the orphans are gone, provided its subject exists. */
  lemma {:induction false} BindReadBack(groups: seq<GroupRow>, nextGroupId: int, topics: seq<TopicRow>, nextTopicId: int,
                                        subjects: seq<Subjects.SubjectRow>, g: GroupRow, topicId: int, row: TopicRow)
    requires GroupsValid(groups, nextGroupId) && g in groups
    requires KeysDistinct(topics, (t: TopicRow) => (t.groupId, t.topicId))
    requires row in topics && row.groupId == g.id && row.topicId == topicId
    requires exists s :: s in subjects && s.id == row.subjectId
    ensures var cleaned := Filter(topics, Attach(groups, subjects));
      GetBinding(groups, cleaned, subjects, g.chatId, topicId)
        == Some(Binding(row.subjectId, First(subjects, (s: Subjects.SubjectRow) => s.id == row.subjectId).value.name, row.section))
  {
    var cleaned := Filter(topics, Attach(groups, subjects));
    var bound := (t: TopicRow) => Bound(groups, subjects, g.chatId, topicId, t);
    assert Attach(groups, subjects)(row);
    assert row in cleaned;
    forall y | y in cleaned && bound(y) ensures y == row {
      var h :| h in groups && h.id == y.groupId && h.chatId == g.chatId;
      KeyIdentifies(groups, (x: GroupRow) => x.chatId, h, g);
      KeyIdentifies(topics, (t: TopicRow) => (t.groupId, t.topicId), y, row);
    }
    FirstOnly(cleaned, bound, row);
  }

  /** The upsert on `tg_chat_id` keeps the groups table valid, the next id
      moving on only when a row is added, and the chat reads back as the
      updated or the new row. */
  lemma GroupUpsert(groups: seq<GroupRow>, nextId: int, chat: int, update: GroupRow -> GroupRow, newRow: GroupRow)
    requires GroupsValid(groups, nextId)
    requires forall x: GroupRow :: x.id == update(x).id && x.chatId == update(x).chatId
    requires newRow.id == nextId && newRow.chatId == chat
    ensures var after := Upsert(groups, ChatIs(chat), update, newRow);
      GroupsValid(after, if GetGroup(groups, chat).Some? then nextId else nextId + 1)
      && GetGroup(after, chat) == Some(if GetGroup(groups, chat).Some? then update(GetGroup(groups, chat).value) else newRow)
  {
    var after := Upsert(groups, ChatIs(chat), update, newRow);
    UpsertReadBack(groups, ChatIs(chat), update, newRow);
    UpsertKeysDistinct(groups, ChatIs(chat), update, newRow, (g: GroupRow) => g.id);
    UpsertKeysDistinct(groups, ChatIs(chat), update, newRow, (g: GroupRow) => g.chatId);
    var bound := if GetGroup(groups, chat).Some? then nextId else nextId + 1;
    forall y | y in after ensures y.id < bound {
      UpsertRows(groups, ChatIs(chat), update, newRow, y);
    }
  }

  /** The upsert on (group, thread) keeps the topics table valid, the next
      id moving on only when a row is added, and the thread reads back as
      the updated or the new row. */
  lemma TopicUpsert(topics: seq<TopicRow>, nextId: int, groupId: int, topicId: int, update: TopicRow -> TopicRow, newRow: TopicRow)
    requires TopicsValid(topics, nextId)
    requires forall x: TopicRow :: x.id == update(x).id && x.groupId == update(x).groupId && x.topicId == update(x).topicId
    requires newRow.id == nextId && newRow.groupId == groupId && newRow.topicId == topicId
    ensures var after := Upsert(topics, TopicIs(groupId, topicId), update, newRow);
      var before := GetTopic(topics, groupId, topicId);
      TopicsValid(after, if before.Some? then nextId else nextId + 1)
      && GetTopic(after, groupId, topicId) == Some(if before.Some? then update(before.value) else newRow)
  {
    var conflict := TopicIs(groupId, topicId);
    var after := Upsert(topics, conflict, update, newRow);
    UpsertReadBack(topics, conflict, update, newRow);
    UpsertKeysDistinct(topics, conflict, update, newRow, (t: TopicRow) => t.id);
    UpsertKeysDistinct(topics, conflict, update, newRow, (t: TopicRow) => (t.groupId, t.topicId));
    var bound := if GetTopic(topics, groupId, topicId).Some? then nextId else nextId + 1;
    forall y | y in after ensures y.id < bound {
      UpsertRows(topics, conflict, update, newRow, y);
    }
  }

  /** The groups and topics tables. */
  class ChatStore {
    var groups: seq<GroupRow>
    var topics: seq<TopicRow>
    var nextGroupId: int
    var nextTopicId: int

    ghost predicate Valid() reads this {
      GroupsValid(groups, nextGroupId) && TopicsValid(topics, nextTopicId)
    }

    constructor ()
      ensures Valid() && groups == [] && topics == []
    {
      groups, topics := [], [];
      nextGroupId, nextTopicId := 1, 1;
    }

    /** The shared upsert on `tg_chat_id`: the id is the new row's, or the
        existing row's (found again by `SELECT id`, since `lastrowid` is
        zero after an update on a fresh connection). */
    method UpsertGroupRow(chat: int, update: GroupRow -> GroupRow, newRow: GroupRow) returns (id: int)
      requires Valid()
      requires forall x: GroupRow :: x.id == update(x).id && x.chatId == update(x).chatId
      requires newRow.id == nextGroupId && newRow.chatId == chat
      modifies this
      ensures Valid() && topics == old(topics) && nextTopicId == old(nextTopicId)
      ensures groups == Upsert(old(groups), ChatIs(chat), update, newRow)
      ensures old(GetGroup(groups, chat)).Some? ==> id == old(GetGroup(groups, chat)).value.id && nextGroupId == old(nextGroupId)
      ensures old(GetGroup(groups, chat)).None? ==> id == old(nextGroupId) && nextGroupId == old(nextGroupId) + 1
      ensures GetGroup(groups, chat)
        == Some(if old(GetGroup(groups, chat)).Some? then update(old(GetGroup(groups, chat)).value) else newRow)
    {
      var existing := GetGroup(groups, chat);
      var updated := Upsert(groups, ChatIs(chat), update, newRow);
      GroupUpsert(groups, nextGroupId, chat, update, newRow);
      groups := updated;
      if existing.Some? {
        id := existing.value.id;
      } else {
        id := nextGroupId;
        nextGroupId := nextGroupId + 1;
      }
    }

    /** `upsert_group(tg_chat_id, title, level_id=…, term_id=…,
        section_id=…)` of the repository: one row per chat, whose title,
        level, term and section are all set to the arguments. */
    method UpsertGroup(chat: int, title: string, level: Option<int>, term: Option<int>, section: Option<int>)
      returns (id: int)
      requires Valid()
      modifies this
      ensures Valid() && topics == old(topics) && nextTopicId == old(nextTopicId)
      ensures groups == Upsert(old(groups), ChatIs(chat), SetGroup(title, level, term, section),
                               GroupRow(old(nextGroupId), chat, title, level, term, section))
      ensures old(GetGroup(groups, chat)).Some? ==> id == old(GetGroup(groups, chat)).value.id
      ensures old(GetGroup(groups, chat)).None? ==> id == old(nextGroupId)
      ensures GetGroup(groups, chat) == Some(GroupRow(id, chat, title, level, term, section))
    {
      id := UpsertGroupRow(chat, SetGroup(title, level, term, section), GroupRow(nextGroupId, chat, title, level, term, section));
    }

    /** The older `upsert_group(tg_chat_id, level_id, term_id, title)`:
        title, level and term are set; an existing row keeps its section, a
        new one has none. */
    method UpsertGroupInfo(chat: int, level: int, term: int, title: string)
      requires Valid()
      modifies this
      ensures Valid() && topics == old(topics) && nextTopicId == old(nextTopicId)
      ensures groups == Upsert(old(groups), ChatIs(chat), SetGroupInfo(title, level, term),
                               GroupRow(old(nextGroupId), chat, title, Some(level), Some(term), None))
      ensures GetGroupInfo(groups, chat) == Some((Some(level), Some(term)))
      ensures GetGroup(groups, chat).Some? && GetGroup(groups, chat).value.title == title
      ensures GetGroup(groups, chat).value.sectionId
        == (if old(GetGroup(groups, chat)).Some? then old(GetGroup(groups, chat)).value.sectionId else None)
    {
      var _ := UpsertGroupRow(chat, SetGroupInfo(title, level, term), GroupRow(nextGroupId, chat, title, Some(level), Some(term), None));
    }

    /** The shared upsert on `(group_id, tg_topic_id)`. */
    method UpsertTopicRow(groupId: int, topicId: int, update: TopicRow -> TopicRow, newRow: TopicRow) returns (id: int)
      requires Valid()
      requires forall x: TopicRow :: x.id == update(x).id && x.groupId == update(x).groupId && x.topicId == update(x).topicId
      requires newRow.id == nextTopicId && newRow.groupId == groupId && newRow.topicId == topicId
      modifies this
      ensures Valid() && groups == old(groups) && nextGroupId == old(nextGroupId)
      ensures topics == Upsert(old(topics), TopicIs(groupId, topicId), update, newRow)
      ensures old(GetTopic(topics, groupId, topicId)).Some? ==>
        id == old(GetTopic(topics, groupId, topicId)).value.id && nextTopicId == old(nextTopicId)
      ensures old(GetTopic(topics, groupId, topicId)).None? ==> id == old(nextTopicId) && nextTopicId == old(nextTopicId) + 1
      ensures GetTopic(topics, groupId, topicId)
        == Some(if old(GetTopic(topics, groupId, topicId)).Some? then update(old(GetTopic(topics, groupId, topicId)).value) else newRow)
    {
      var existing := GetTopic(topics, groupId, topicId);
      var conflict := TopicIs(groupId, topicId);
      TopicUpsert(topics, nextTopicId, groupId, topicId, update, newRow);
      topics := Upsert(topics, conflict, update, newRow);
      if existing.Some? {
        id := existing.value.id;
      } else {
        id := nextTopicId;
        nextTopicId := nextTopicId + 1;
      }
    }

    /** `upsert_topic(group_id, tg_topic_id, subject_id, section_id=…)`: one
        row per (group, thread), whose subject and section are set to the
        arguments; the section text is left as it was. */
    method UpsertTopic(groupId: int, topicId: int, subjectId: int, sectionId: Option<int>) returns (id: int)
      requires Valid()
      modifies this
      ensures Valid() && groups == old(groups) && nextGroupId == old(nextGroupId)
      ensures topics == Upsert(old(topics), TopicIs(groupId, topicId), SetTopic(subjectId, sectionId),
                               TopicRow(old(nextTopicId), groupId, topicId, subjectId, sectionId, None))
      ensures old(GetTopic(topics, groupId, topicId)).Some? ==> id == old(GetTopic(topics, groupId, topicId)).value.id
      ensures old(GetTopic(topics, groupId, topicId)).None? ==> id == old(nextTopicId)
      ensures var section := if old(GetTopic(topics, groupId, topicId)).Some? then old(GetTopic(topics, groupId, topicId)).value.section else None;
        GetTopic(topics, groupId, topicId) == Some(TopicRow(id, groupId, topicId, subjectId, sectionId, section))
    {
      id := UpsertTopicRow(groupId, topicId, SetTopic(subjectId, sectionId), TopicRow(nextTopicId, groupId, topicId, subjectId, sectionId, None));
    }

    /** `cleanup_orphan_topics()`: the topics whose group or subject is gone
        are deleted, the others stay in order. */
    method CleanupOrphanTopics(subjects: seq<Subjects.SubjectRow>)
      requires Valid()
      modifies this
      ensures Valid() && groups == old(groups) && nextGroupId == old(nextGroupId) && nextTopicId == old(nextTopicId)
      ensures topics == Filter(old(topics), Attach(groups, subjects))
      ensures forall t :: t in topics ==> Attached(groups, subjects, t)
      ensures forall t :: t in old(topics) && Attached(groups, subjects, t) ==> t in topics
    {
      KeysDistinctFilter(topics, (t: TopicRow) => t.id, Attach(groups, subjects));
      KeysDistinctFilter(topics, (t: TopicRow) => (t.groupId, t.topicId), Attach(groups, subjects));
      topics := Filter(topics, Attach(groups, subjects));
    }

    /** `bind(tg_chat_id, tg_topic_id, subject_id, section)`: without a
        group for the chat nothing is written and `ValueError` is raised;
        otherwise the thread's topic is upserted with that subject and
        section text and the orphans are then deleted, after which the
        binding reads back when the subject exists. */
    method Bind(chat: int, topicId: int, subjectId: int, section: string, subjects: seq<Subjects.SubjectRow>)
      returns (r: Result<(), BindError>)
      requires Valid()
      modifies this
      ensures Valid() && groups == old(groups) && nextGroupId == old(nextGroupId)
      ensures old(GetGroup(groups, chat)).None? ==>
        r == Err(GroupNotFound) && topics == old(topics) && nextTopicId == old(nextTopicId)
      ensures old(GetGroup(groups, chat)).Some? ==>
        var gid := old(GetGroup(groups, chat)).value.id;
        r == Ok(()) && topics == Filter(Upsert(old(topics), TopicIs(gid, topicId), SetBinding(subjectId, section),
                                                    TopicRow(old(nextTopicId), gid, topicId, subjectId, None, Some(section))),
                                             Attach(groups, subjects))
      ensures r.Ok? ==> forall t :: t in topics ==> Attached(groups, subjects, t)
      ensures r.Ok? && (exists s :: s in subjects && s.id == subjectId) ==>
        GetBinding(groups, topics, subjects, chat, topicId)
          == Some(Binding(subjectId, First(subjects, (s: Subjects.SubjectRow) => s.id == subjectId).value.name, Some(section)))
    {
      var g := GetGroup(groups, chat);
      if g.None? {
        return Err(GroupNotFound);
      }
      var gid := g.value.id;
      var _ := UpsertTopicRow(gid, topicId, SetBinding(subjectId, section), TopicRow(nextTopicId, gid, topicId, subjectId, None, Some(section)));
      ghost var row := GetTopic(topics, gid, topicId).value;
      ghost var upserted := topics;
      CleanupOrphanTopics(subjects);
      r := Ok(());
      if exists s :: s in subjects && s.id == subjectId {
        BindReadBack(groups, nextGroupId, upserted, nextTopicId, subjects, g.value, topicId, row);
      }
    }
  }

  /** The id `upsert_group` returns names the chat's row from then on, and a
      second upsert of the same chat keeps that id and the table's size. */
  lemma UpsertGroupStable(groups: seq<GroupRow>, nextId: int, chat: int, title: string,
                          level: Option<int>, term: Option<int>, section: Option<int>)
    requires GroupsValid(groups, nextId) && GetGroup(groups, chat).Some?
    ensures var after := Upsert(groups, ChatIs(chat), SetGroup(title, level, term, section),
                                GroupRow(nextId, chat, title, level, term, section));
      |after| == |groups| && GetGroup(after, chat) == Some(GroupRow(GetGroup(groups, chat).value.id, chat, title, level, term, section))
  {
    UpsertReadBack(groups, ChatIs(chat), SetGroup(title, level, term, section), GroupRow(nextId, chat, title, level, term, section));
  }
}
