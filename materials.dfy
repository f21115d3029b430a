/** The `materials` table: one row per archived file or link, with its place
    in the taxonomy, its lecture metadata and where the bot keeps its copy;
    and the `years` and `lecturers` name tables the metadata points into. */
module Materials {
  import opened Wrappers
  import opened Seqs

  /** The columns of a material besides its id. `section` and `category`
      are the text columns older rows carry; the insert leaves them NULL. */
  datatype Material = Material(
    subjectId: int, sectionId: Option<int>, categoryId: Option<int>, itemTypeId: Option<int>, title: string,
    url: Option<string>, yearId: Option<int>, lecturerId: Option<int>, lectureNo: Option<int>,
    contentHash: Option<string>, storageChatId: Option<int>, storageMsgId: Option<int>,
    fileUniqueId: Option<string>, sourceChatId: Option<int>, sourceTopicId: Option<int>,
    sourceMessageId: Option<int>, createdByAdminId: Option<int>,
    section: Option<string>, category: Option<string>)

  datatype MaterialRow = MaterialRow(id: int, m: Material)

  /** `url IS NOT NULL OR tg_storage_msg_id IS NOT NULL`: the material can be
      served. */
  predicate Available(m: Material) {
    m.url.Some? || m.storageMsgId.Some?
  }

  /** The ids are a primary key below the next id to hand out. */
  ghost predicate RowsValid(rows: seq<MaterialRow>, nextId: int) {
    KeysDistinct(rows, (r: MaterialRow) => r.id) && forall r :: r in rows ==> r.id < nextId
  }

  /** `get_material(id)`: the row with that id, or `None`. */
  function GetMaterial(rows: seq<MaterialRow>, id: int): (r: Option<MaterialRow>)
    ensures r.Some? ==> r.value in rows && r.value.id == id
    ensures r.None? <==> forall x :: x in rows ==> x.id != id
  {
    First(rows, (x: MaterialRow) => x.id == id)
  }

  /** `get_material_source(id)`: the chat, topic and message the material was
      posted in. */
  function GetMaterialSource(rows: seq<MaterialRow>, id: int): (r: Option<(Option<int>, Option<int>, Option<int>)>)
    ensures r.None? <==> GetMaterial(rows, id).None?
    ensures r.Some? ==> var m := GetMaterial(rows, id).value.m; r.value == (m.sourceChatId, m.sourceTopicId, m.sourceMessageId)
  {
    match GetMaterial(rows, id)
    case None => None
    case Some(row) => Some((row.m.sourceChatId, row.m.sourceTopicId, row.m.sourceMessageId))
  }

  /** `find_by_hash(hash)`: some row with that content hash, or `None`. */
  function FindByHash(rows: seq<MaterialRow>, hash: string): (r: Option<MaterialRow>)
    ensures r.Some? ==> r.value in rows && r.value.m.contentHash == Some(hash)
    ensures r.None? <==> forall x :: x in rows ==> x.m.contentHash != Some(hash)
  {
    First(rows, (x: MaterialRow) => x.m.contentHash == Some(hash))
  }

  /** The key `find_exact` compares a material with. */
  datatype ExactKey = ExactKey(subjectId: int, sectionId: Option<int>, categoryId: Option<int>, title: string,
                               yearId: Option<int>, lecturerId: Option<int>, lectureNo: Option<int>,
                               contentHash: Option<string>)

  /** The `WHERE` clause `find_exact` builds: subject and title equal;
      section and category compared with `IS`, so NULL matches NULL; a
      missing year or lecturer matches only NULL, a given one only itself;
      the lecture number and the hash constrain the row only when given. */
  predicate ExactMatch(m: Material, k: ExactKey) {
    m.subjectId == k.subjectId && m.sectionId == k.sectionId && m.categoryId == k.categoryId
    && m.title == k.title
    && (if k.yearId.None? then m.yearId.None? else m.yearId == k.yearId)
    && (if k.lecturerId.None? then m.lecturerId.None? else m.lecturerId == k.lecturerId)
    && (k.lectureNo.Some? ==> m.lectureNo == k.lectureNo)
    && (k.contentHash.Some? ==> m.contentHash == k.contentHash)
  }

  /** `find_exact`: the id of the first matching row, or `None`. */
  function FindExact(rows: seq<MaterialRow>, k: ExactKey): (r: Option<int>)
    ensures r.None? <==> forall x :: x in rows ==> !ExactMatch(x.m, k)
    ensures r.Some? ==>
      exists i :: (0 <= i < |rows| && rows[i].id == r.value && ExactMatch(rows[i].m, k)
        && forall j :: 0 <= j < i ==> !ExactMatch(rows[j].m, k))
  {
    match First(rows, (x: MaterialRow) => ExactMatch(x.m, k))
    case None => None
    case Some(row) => Some(row.id)
  }

  /** The columns of a material, as `find_exact` sees them, are the key. */
  function KeyOf(m: Material): ExactKey {
    ExactKey(m.subjectId, m.sectionId, m.categoryId, m.title, m.yearId, m.lecturerId, m.lectureNo, m.contentHash)
  }

  /** A material always matches its own key, and a key without a lecture
      number or hash also matches materials that differ only there. */
  lemma ExactMatchOwnKey(m: Material, n: Material)
    ensures ExactMatch(m, KeyOf(m))
    ensures n == m.(lectureNo := n.lectureNo, contentHash := n.contentHash) ==>
      ExactMatch(n, KeyOf(m).(lectureNo := None, contentHash := None))
  {
  }

  /** After a material is inserted, `find_exact` with its key finds a row:
      the new one, or an earlier one that matches too. */
  lemma FindExactAfterInsert(rows: seq<MaterialRow>, row: MaterialRow)
    ensures FindExact(rows + [row], KeyOf(row.m)).Some?
    ensures FindExact(rows, KeyOf(row.m)).None? ==> FindExact(rows + [row], KeyOf(row.m)) == Some(row.id)
  {
    FirstAppend(rows, row, (x: MaterialRow) => ExactMatch(x.m, KeyOf(row.m)));
  }

  /** The storage columns a material gets when its copy moves. */
  function WithStorage(m: Material, chatId: int, msgId: int, fileUniqueId: Option<string>): Material {
    m.(storageChatId := Some(chatId), storageMsgId := Some(msgId), fileUniqueId := fileUniqueId)
  }

  class MaterialStore {
    var rows: seq<MaterialRow>
    var nextId: int

    ghost predicate Valid() reads this {
      RowsValid(rows, nextId)
    }

    constructor ()
      ensures Valid() && rows == []
    {
      rows, nextId := [], 1;
    }

    /** `insert_material`: a fresh id whose row holds the given columns. */
    method InsertMaterial(m: Material) returns (id: int)
      requires Valid()
      modifies this
      ensures Valid()
      ensures id == old(nextId) && rows == old(rows) + [MaterialRow(id, m)] && nextId == old(nextId) + 1
      ensures forall x :: x in old(rows) ==> x.id != id
      ensures GetMaterial(rows, id) == Some(MaterialRow(id, m))
    {
      id := nextId;
      var row := MaterialRow(id, m);
      FirstAppend(rows, row, (x: MaterialRow) => x.id == id);
      rows := rows + [row];
      nextId := nextId + 1;
    }

    /** `update_material_storage`: the storage chat, message and file id of
        that material are overwritten (the file id with `None` when none is
        given); every other column and row stays. */
    method UpdateMaterialStorage(id: int, chatId: int, msgId: int, fileUniqueId: Option<string>)
      requires Valid()
      modifies this
      ensures Valid() && nextId == old(nextId)
      ensures rows == Map(old(rows), (x: MaterialRow) => if x.id == id then MaterialRow(id, WithStorage(x.m, chatId, msgId, fileUniqueId)) else x)
    {
      var f := (x: MaterialRow) => if x.id == id then MaterialRow(id, WithStorage(x.m, chatId, msgId, fileUniqueId)) else x;
      var updated := Map(rows, f);
      KeysDistinctRewrite(rows, updated, (r: MaterialRow) => r.id);
      forall x | x in updated ensures x.id < nextId {
        var i :| 0 <= i < |updated| && updated[i] == x;
        assert rows[i] in rows;
      }
      rows := updated;
    }

    /** `delete_material`: that row is gone, the others stay in order. */
    method DeleteMaterial(id: int)
      requires Valid()
      modifies this
      ensures Valid() && nextId == old(nextId)
      ensures rows == Filter(old(rows), (x: MaterialRow) => x.id != id)
      ensures GetMaterial(rows, id).None?
    {
      KeysDistinctFilter(rows, (r: MaterialRow) => r.id, (x: MaterialRow) => x.id != id);
      rows := Filter(rows, (x: MaterialRow) => x.id != id);
    }
  }

  /** Moving the copy of a material changes exactly its three storage
      columns: the row read back has the new storage and the same other
      columns, and other rows read back unchanged. */
  lemma StorageUpdateReadBack(rows: seq<MaterialRow>, nextId: int, id: int, other: int,
                              chatId: int, msgId: int, fileUniqueId: Option<string>)
    requires RowsValid(rows, nextId)
    ensures var f := (x: MaterialRow) => if x.id == id then MaterialRow(id, WithStorage(x.m, chatId, msgId, fileUniqueId)) else x;
      var updated := Map(rows, f);
      (GetMaterial(rows, id).Some? ==> GetMaterial(updated, id) == Some(MaterialRow(id, WithStorage(GetMaterial(rows, id).value.m, chatId, msgId, fileUniqueId))))
      && (GetMaterial(rows, id).None? ==> updated == rows)
      && (other != id ==> GetMaterial(updated, other) == GetMaterial(rows, other))
  {
    var f := (x: MaterialRow) => if x.id == id then MaterialRow(id, WithStorage(x.m, chatId, msgId, fileUniqueId)) else x;
    var updated := Map(rows, f);
    FirstMap(rows, f, (x: MaterialRow) => x.id == id);
    FirstMap(rows, f, (x: MaterialRow) => x.id == other);
    if GetMaterial(rows, id).None? {
      assert forall i :: 0 <= i < |rows| ==> updated[i] == rows[i];
    }
  }

  // ----- years and lecturers ----------------------------------------------------

  datatype YearRow = YearRow(id: int, name: string)
  datatype LecturerRow = LecturerRow(id: int, name: string, role: string)

  /** `SELECT id FROM years WHERE name=?`. */
  function YearIdByName(years: seq<YearRow>, name: string): (r: Option<int>)
    ensures r.Some? <==> exists y :: y in years && y.name == name
    ensures r.Some? ==> YearRow(r.value, name) in years
  {
    match First(years, (y: YearRow) => y.name == name)
    case None => None
    case Some(y) => Some(y.id)
  }

  /** `SELECT id FROM lecturers WHERE name=?`. */
  function LecturerIdByName(lecturers: seq<LecturerRow>, name: string): (r: Option<int>)
    ensures r.Some? <==> exists l :: l in lecturers && l.name == name
    ensures r.Some? ==> exists l :: l in lecturers && l.name == name && l.id == r.value
  {
    match First(lecturers, (l: LecturerRow) => l.name == name)
    case None => None
    case Some(l) => Some(l.id)
  }

  /** A name not yet in the years table, appended under the next id: the
      ids stay distinct and below the advanced counter, and the name reads
      back as that id. */
  lemma YearAppended(years: seq<YearRow>, next: int, name: string)
    requires KeysDistinct(years, (y: YearRow) => y.id) && forall y :: y in years ==> y.id < next
    requires YearIdByName(years, name).None?
    ensures var t := years + [YearRow(next, name)];
      KeysDistinct(t, (y: YearRow) => y.id) && (forall y :: y in t ==> y.id < next + 1)
      && YearIdByName(t, name) == Some(next)
  {
    KeysDistinctAppend(years, (y: YearRow) => y.id, YearRow(next, name));
    FirstAppend(years, YearRow(next, name), (y: YearRow) => y.name == name);
  }

  /** The same for the lecturers table. */
  lemma LecturerAppended(lecturers: seq<LecturerRow>, next: int, name: string, role: string)
    requires KeysDistinct(lecturers, (l: LecturerRow) => l.id) && forall l :: l in lecturers ==> l.id < next
    requires LecturerIdByName(lecturers, name).None?
    ensures var t := lecturers + [LecturerRow(next, name, role)];
      KeysDistinct(t, (l: LecturerRow) => l.id) && (forall l :: l in t ==> l.id < next + 1)
      && LecturerIdByName(t, name) == Some(next)
  {
    KeysDistinctAppend(lecturers, (l: LecturerRow) => l.id, LecturerRow(next, name, role));
    FirstAppend(lecturers, LecturerRow(next, name, role), (l: LecturerRow) => l.name == name);
  }

  class NameStore {
    var years: seq<YearRow>
    var lecturers: seq<LecturerRow>
    var nextYearId: int
    var nextLecturerId: int

    ghost predicate Valid() reads this {
      KeysDistinct(years, (y: YearRow) => y.id) && (forall y :: y in years ==> y.id < nextYearId)
      && KeysDistinct(lecturers, (l: LecturerRow) => l.id) && (forall l :: l in lecturers ==> l.id < nextLecturerId)
    }

    constructor ()
      ensures Valid() && years == [] && lecturers == []
    {
      years, lecturers := [], [];
      nextYearId, nextLecturerId := 1, 1;
    }

    /** `years.get_or_create(name)`, and `ensure_year_id(name)`, which does
        the same through `INSERT OR IGNORE`: an existing name keeps its id and
        the table; a new one is appended under a fresh id. Either way the name
        then reads back as the id returned. */
    method EnsureYearId(name: string) returns (id: int)
      requires Valid()
      modifies this
      ensures Valid() && lecturers == old(lecturers) && nextLecturerId == old(nextLecturerId)
      ensures old(YearIdByName(years, name)).Some? ==> id == old(YearIdByName(years, name)).value && years == old(years)
      ensures old(YearIdByName(years, name)).None? ==> years == old(years) + [YearRow(id, name)] && id == old(nextYearId)
      ensures YearIdByName(years, name) == Some(id)
    {
      var existing := YearIdByName(years, name);
      if existing.Some? {
        return existing.value;
      }
      id := nextYearId;
      YearAppended(years, id, name);
      years := years + [YearRow(id, name)];
      nextYearId := nextYearId + 1;
    }

    /** `lecturers.get_or_create(name, role)` and `ensure_lecturer_id`: an
        existing lecturer keeps its id and its role; a new one is appended
        with the given role. */
    method EnsureLecturerId(name: string, role: string) returns (id: int)
      requires Valid()
      modifies this
      ensures Valid() && years == old(years) && nextYearId == old(nextYearId)
      ensures old(LecturerIdByName(lecturers, name)).Some? ==>
        id == old(LecturerIdByName(lecturers, name)).value && lecturers == old(lecturers)
      ensures old(LecturerIdByName(lecturers, name)).None? ==>
        lecturers == old(lecturers) + [LecturerRow(id, name, role)] && id == old(nextLecturerId)
      ensures LecturerIdByName(lecturers, name) == Some(id)
    {
      var existing := LecturerIdByName(lecturers, name);
      if existing.Some? {
        return existing.value;
      }
      id := nextLecturerId;
      LecturerAppended(lecturers, id, name, role);
      lecturers := lecturers + [LecturerRow(id, name, role)];
      nextLecturerId := nextLecturerId + 1;
    }
  }

  /** Get-or-create is idempotent: once a name is in the table, looking it
      up again gives the same id and adds nothing, and names already there
      keep their ids. */
  lemma {:induction false} YearGetOrCreateStable(years: seq<YearRow>, row: YearRow, other: string)
    requires YearIdByName(years, row.name).None?
    ensures YearIdByName(years + [row], row.name) == Some(row.id)
    ensures other != row.name ==> YearIdByName(years + [row], other) == YearIdByName(years, other)
  {
    FirstAppend(years, row, (y: YearRow) => y.name == row.name);
    FirstAppend(years, row, (y: YearRow) => y.name == other);
  }
}
