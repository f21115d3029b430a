/** Term resources: messages kept in storage for a level and term under one
    of a fixed set of kinds (attendance, study plan, …). Rows are only ever
    added; the latest row of a kind is the one shown. */
module TermResources {
  import opened Wrappers
  import opened Seqs

  /** The members of `TermResourceKind`. */
  datatype Kind = Attendance | StudyPlan | Channels | Outcomes | Tips | Projects
                | Programs | Apps | Forums | Sites | Misc

  /** The text value of a kind, as stored in the `kind` column. */
  function KindValue(k: Kind): string {
    match k
    case Attendance => "attendance"
    case StudyPlan => "study_plan"
    case Channels => "channels"
    case Outcomes => "outcomes"
    case Tips => "tips"
    case Projects => "projects"
    case Programs => "programs"
    case Apps => "apps"
    case Forums => "forums"
    case Sites => "sites"
    case Misc => "misc"
  }

  /** The `ValueError("Unsupported term resource kind: …")` of
      `_validate_kind`. */
  datatype KindError = UnsupportedKind(kind: string)

  /** `_validate_kind(kind)`: the kind's value when the text is one of the
      eleven values, and `ValueError` for anything else. */
  function ValidateKind(kind: string): (r: Result<string, KindError>)
    ensures r.Ok? <==> exists k :: KindValue(k) == kind
    ensures r.Ok? ==> r.value == kind
    ensures r.Err? ==> r.error == UnsupportedKind(kind)
  {
    if kind in {"attendance", "study_plan", "channels", "outcomes", "tips", "projects",
                "programs", "apps", "forums", "sites", "misc"} then
      assert kind == KindValue(Attendance) || kind == KindValue(StudyPlan) || kind == KindValue(Channels)
        || kind == KindValue(Outcomes) || kind == KindValue(Tips) || kind == KindValue(Projects)
        || kind == KindValue(Programs) || kind == KindValue(Apps) || kind == KindValue(Forums)
        || kind == KindValue(Sites) || kind == KindValue(Misc);
      Ok(kind)
    else Err(UnsupportedKind(kind))
  }

  /** Each kind has its own value and is accepted by the validation. */
  lemma KindValuesDistinct(a: Kind, b: Kind)
    ensures KindValue(a) == KindValue(b) ==> a == b
    ensures ValidateKind(KindValue(a)) == Ok(KindValue(a))
  {
  }

  /** A row of `term_resources`. */
  datatype ResourceRow = ResourceRow(id: int, levelId: int, termId: int, kind: string, chatId: int, msgId: int)

  ghost predicate RowsValid(rows: seq<ResourceRow>, nextId: int) {
    KeysDistinct(rows, (r: ResourceRow) => r.id) && forall r :: r in rows ==> r.id < nextId
  }

  function KeyIs(levelId: int, termId: int, kind: string): ResourceRow -> bool {
    (r: ResourceRow) => r.levelId == levelId && r.termId == termId && r.kind == kind
  }

  /** The row with the highest id, if any. */
  function MaxById(rows: seq<ResourceRow>): (r: Option<ResourceRow>)
    ensures r.None? <==> rows == []
    ensures r.Some? ==> r.value in rows && forall x :: x in rows ==> x.id <= r.value.id
  {
    if rows == [] then None
    else
      var rest := MaxById(rows[1..]);
      assert forall x :: x in rows ==> x == rows[0] || x in rows[1..];
      if rest.None? || rows[0].id >= rest.value.id then Some(rows[0]) else rest
  }

  /** `get_latest_term_resource(level_id, term_id, kind)`: the storage chat
      and message of the highest-id row of that level, term and kind;
      `None` without one; `ValueError` for an unknown kind. */
  function GetLatestTermResource(rows: seq<ResourceRow>, levelId: int, termId: int, kind: string)
    : (r: Result<Option<(int, int)>, KindError>)
    ensures r.Err? <==> ValidateKind(kind).Err?
    ensures r.Ok? && r.value.None? <==> r.Ok? && forall x :: x in rows ==> !KeyIs(levelId, termId, kind)(x)
    ensures r.Ok? && r.value.Some? ==>
      exists x :: (x in rows && KeyIs(levelId, termId, kind)(x) && r.value.value == (x.chatId, x.msgId)
        && forall y :: y in rows && KeyIs(levelId, termId, kind)(y) ==> y.id <= x.id)
  {
    match ValidateKind(kind)
    case Err(e) => Err(e)
    case Ok(k) =>
      var latest := MaxById(Filter(rows, KeyIs(levelId, termId, k)));
      if latest.None? then
        assert forall x :: x in rows ==> !KeyIs(levelId, termId, kind)(x);
        Ok(None)
      else Ok(Some((latest.value.chatId, latest.value.msgId)))
  }

  /** `has_term_resource(level_id, term_id, kind)`: whether a row of that
      level, term and kind exists; `ValueError` for an unknown kind. */
  function HasTermResource(rows: seq<ResourceRow>, levelId: int, termId: int, kind: string): (r: Result<bool, KindError>)
    ensures r.Err? <==> ValidateKind(kind).Err?
    ensures r.Ok? ==> (r.value <==> exists x :: x in rows && KeyIs(levelId, termId, kind)(x))
  {
    match ValidateKind(kind)
    case Err(e) => Err(e)
    case Ok(k) => Ok(First(rows, KeyIs(levelId, termId, k)).Some?)
  }

  /** `has_term_resource` holds exactly when `get_latest_term_resource`
      finds a row. */
  lemma HasIffLatest(rows: seq<ResourceRow>, levelId: int, termId: int, kind: string)
    ensures HasTermResource(rows, levelId, termId, kind).Ok? ==>
      (HasTermResource(rows, levelId, termId, kind).value <==> GetLatestTermResource(rows, levelId, termId, kind).value.Some?)
  {
  }

  /** `list_term_resource_kinds(level_id, term_id)`: the distinct kinds
      stored for that level and term, with no validation. */
  function ListTermResourceKinds(rows: seq<ResourceRow>, levelId: int, termId: int): (r: seq<string>)
    ensures forall i, j :: 0 <= i < j < |r| ==> r[i] != r[j]
    ensures forall k :: k in r <==> exists x :: x in rows && x.levelId == levelId && x.termId == termId && x.kind == k
  {
    var kinds := Map(Filter(rows, (x: ResourceRow) => x.levelId == levelId && x.termId == termId), (x: ResourceRow) => x.kind);
    forall k ensures k in kinds <==> exists x :: x in rows && x.levelId == levelId && x.termId == termId && x.kind == k {
      var matching := Filter(rows, (x: ResourceRow) => x.levelId == levelId && x.termId == termId);
      if k in kinds {
        var i :| 0 <= i < |kinds| && kinds[i] == k;
        assert matching[i] in rows;
      }
      if exists x :: x in rows && x.levelId == levelId && x.termId == termId && x.kind == k {
        var x :| x in rows && x.levelId == levelId && x.termId == termId && x.kind == k;
        assert x in matching;
        var i :| 0 <= i < |matching| && matching[i] == x;
        assert kinds[i] == k;
      }
    }
    Distinct(kinds)
  }

  /** The `term_resources` table. */
  class TermResourceStore {
    var rows: seq<ResourceRow>
    var nextId: int

    ghost predicate Valid() reads this {
      RowsValid(rows, nextId)
    }

    constructor ()
      ensures Valid() && rows == []
    {
      rows, nextId := [], 1;
    }

    /** `insert_term_resource(level_id, term_id, kind, chat, msg)`: an
        unknown kind raises `ValueError` before the table is touched;
        otherwise one row is appended under a fresh id and no row is
        removed. The new row is then the latest of its key. */
    method InsertTermResource(levelId: int, termId: int, kind: string, chatId: int, msgId: int)
      returns (r: Result<int, KindError>)
      requires Valid()
      modifies this
      ensures Valid()
      ensures ValidateKind(kind).Err? ==> r == Err(UnsupportedKind(kind)) && rows == old(rows) && nextId == old(nextId)
      ensures ValidateKind(kind).Ok? ==>
        r == Ok(old(nextId)) && rows == old(rows) + [ResourceRow(old(nextId), levelId, termId, kind, chatId, msgId)]
      ensures r.Ok? ==> GetLatestTermResource(rows, levelId, termId, kind) == Ok(Some((chatId, msgId)))
      ensures r.Ok? ==> HasTermResource(rows, levelId, termId, kind) == Ok(true)
    {
      var k := ValidateKind(kind);
      if k.Err? {
        return Err(k.error);
      }
      var row := ResourceRow(nextId, levelId, termId, kind, chatId, msgId);
      KeysDistinctAppend(rows, (x: ResourceRow) => x.id, row);
      LatestAfterInsert(rows, nextId, row);
      rows := rows + [row];
      r := Ok(nextId);
      nextId := nextId + 1;
    }
  }

  /** A row whose id exceeds every stored id becomes the latest of its key. */
  lemma LatestAfterInsert(rows: seq<ResourceRow>, nextId: int, row: ResourceRow)
    requires RowsValid(rows, nextId) && row.id == nextId
    requires ValidateKind(row.kind).Ok?
    ensures GetLatestTermResource(rows + [row], row.levelId, row.termId, row.kind) == Ok(Some((row.chatId, row.msgId)))
  {
    var p := KeyIs(row.levelId, row.termId, row.kind);
    FilterAppend(rows, [row], p);
    assert Filter([row], p) == [row];
    var latest := MaxById(Filter(rows + [row], p)).value;
    assert row in Filter(rows + [row], p);
    assert latest == row;
  }
}
