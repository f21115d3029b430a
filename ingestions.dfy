/** Ingestion records: one per upload an admin sends, with a status
    (`pending`, `approved`, `rejected`) and an action (`add`, `replace`),
    later attached to the material the upload became. */
module Ingestions {
  import opened Wrappers
  import opened Seqs
  import Materials

  const Pending := "pending"
  const Approved := "approved"
  const Add := "add"

  /** A row of `ingestions`; `createdAt` is the `CURRENT_TIMESTAMP` of the
      insert, in seconds. */
  datatype IngestionRow = IngestionRow(id: int, messageId: int, adminId: int, status: string, action: string,
                                       fileUniqueId: Option<string>, materialId: Option<int>, createdAt: int)

  ghost predicate RowsValid(rows: seq<IngestionRow>, nextId: int) {
    KeysDistinct(rows, (r: IngestionRow) => r.id) && forall r :: r in rows ==> r.id < nextId
  }

  /** A row of `list_pending_ingestions`: ingestion id, the material's
      source chat, the ingestion's message and its action. */
  datatype PendingView = PendingView(id: int, sourceChatId: Option<int>, messageId: int, action: string)

  /** A row of `get_ingestion_material`. */
  datatype IngestionMaterial = IngestionMaterial(
    materialId: int, sourceChatId: Option<int>, sourceMessageId: Option<int>,
    messageId: int, action: string, fileUniqueId: Option<string>,
    storageChatId: Option<int>, storageMsgId: Option<int>)

  /** The material an ingestion is attached to, when it exists. */
  function MaterialOf(materials: seq<Materials.MaterialRow>, i: IngestionRow): (r: Option<Materials.MaterialRow>)
    ensures r.Some? ==> i.materialId == Some(r.value.id) && r.value in materials
    ensures r.None? <==> i.materialId.None? || forall m :: m in materials ==> m.id != i.materialId.value
  {
    if i.materialId.None? then None
    else First(materials, (m: Materials.MaterialRow) => m.id == i.materialId.value)
  }

  /** The ingestions `list_pending_ingestions` returns: pending and joined
      to an existing material. */
  predicate Listed(materials: seq<Materials.MaterialRow>, i: IngestionRow) {
    i.status == Pending && MaterialOf(materials, i).Some?
  }

  /** The view of an ingestion in the pending list; the chat is `None` when
      the material is missing, which the join never lets through. */
  function PendingRow(materials: seq<Materials.MaterialRow>): IngestionRow -> PendingView {
    (i: IngestionRow) =>
      PendingView(i.id, if MaterialOf(materials, i).Some? then MaterialOf(materials, i).value.m.sourceChatId else None,
                  i.messageId, i.action)
  }

  function IsListed(materials: seq<Materials.MaterialRow>): IngestionRow -> bool {
    (i: IngestionRow) => Listed(materials, i)
  }

  function CreatedAt(i: IngestionRow): int { i.createdAt }

  /** `list_pending_ingestions()`: the pending ingestions whose material
      exists, ordered by creation time. */
  function ListPendingIngestions(rows: seq<IngestionRow>, materials: seq<Materials.MaterialRow>): (r: seq<PendingView>)
    ensures forall v :: v in r <==> exists i :: i in rows && Listed(materials, i) && v == PendingRow(materials)(i)
    ensures exists listed :: (SortedBy(listed, CreatedAt) && multiset(listed) == multiset(Filter(rows, IsListed(materials)))
      && r == Map(listed, PendingRow(materials)))
  {
    var listed := SortBy(Filter(rows, IsListed(materials)), CreatedAt);
    PendingMembers(rows, materials);
    Map(listed, PendingRow(materials))
  }

  /** The listed views are exactly the views of the listed ingestions. */
  lemma PendingMembers(rows: seq<IngestionRow>, materials: seq<Materials.MaterialRow>)
    ensures forall v :: (v in Map(SortBy(Filter(rows, IsListed(materials)), CreatedAt), PendingRow(materials))
      <==> exists i :: i in rows && Listed(materials, i) && v == PendingRow(materials)(i))
  {
    SelectMembers(rows, IsListed(materials), CreatedAt, PendingRow(materials));
  }

  function IdIs(id: int): IngestionRow -> bool {
    (i: IngestionRow) => i.id == id
  }

  /** `get_ingestion_material(ingestion_id)`: the material's and the
      ingestion's details, or `None` when the ingestion or its material is
      missing. */
  function GetIngestionMaterial(rows: seq<IngestionRow>, materials: seq<Materials.MaterialRow>, id: int)
    : (r: Option<IngestionMaterial>)
    ensures r.Some? ==>
      exists i, m :: (i in rows && i.id == id && m in materials && i.materialId == Some(m.id)
        && r.value == IngestionMaterial(m.id, m.m.sourceChatId, m.m.sourceMessageId, i.messageId, i.action,
                                        i.fileUniqueId, m.m.storageChatId, m.m.storageMsgId))
    ensures KeysDistinct(rows, (i: IngestionRow) => i.id) ==>
      (r.None? <==> forall i :: i in rows && i.id == id ==> MaterialOf(materials, i).None?)
  {
    match First(rows, IdIs(id))
    case None => None
    case Some(i) =>
      assert KeysDistinct(rows, (i: IngestionRow) => i.id) ==> forall j :: j in rows && j.id == id ==> j == i by {
        if KeysDistinct(rows, (i: IngestionRow) => i.id) {
          forall j | j in rows && j.id == id ensures j == i {
            KeyIdentifies(rows, (i: IngestionRow) => i.id, i, j);
          }
        }
      }
      match MaterialOf(materials, i)
      case None => None
      case Some(m) =>
        Some(IngestionMaterial(m.id, m.m.sourceChatId, m.m.sourceMessageId, i.messageId, i.action,
                               i.fileUniqueId, m.m.storageChatId, m.m.storageMsgId))
  }

  /** Whether `delete_old_pending_ingestions` removes a row: pending and
      created before the cutoff. */
  predicate Expired(cutoff: int, i: IngestionRow) {
    i.status == Pending && i.createdAt < cutoff
  }

  function Kept(cutoff: int): IngestionRow -> bool {
    (i: IngestionRow) => !Expired(cutoff, i)
  }

  /** The `ingestions` table. */
  class IngestionStore {
    var rows: seq<IngestionRow>
    var nextId: int

    ghost predicate Valid() reads this {
      RowsValid(rows, nextId)
    }

    constructor ()
      ensures Valid() && rows == []
    {
      rows, nextId := [], 1;
    }

    /** `insert_ingestion(tg_message_id, admin_id, status, action,
        file_unique_id)`: a record under a fresh id, attached to no material
        and created at `now`. */
    method InsertIngestion(messageId: int, adminId: int, status: string, action: string,
                           fileUniqueId: Option<string>, now: int) returns (id: int)
      requires Valid()
      modifies this
      ensures Valid()
      ensures id == old(nextId) && forall x :: x in old(rows) ==> x.id != id
      ensures rows == old(rows) + [IngestionRow(id, messageId, adminId, status, action, fileUniqueId, None, now)]
      ensures First(rows, IdIs(id)) == Some(IngestionRow(id, messageId, adminId, status, action, fileUniqueId, None, now))
    {
      id := nextId;
      var row := IngestionRow(id, messageId, adminId, status, action, fileUniqueId, None, now);
      KeysDistinctAppend(rows, (x: IngestionRow) => x.id, row);
      FirstAppend(rows, row, IdIs(id));
      rows := rows + [row];
      nextId := nextId + 1;
    }

    /** Rewrites the record with that id by `f`, which keeps ids. */
    method Rewrite(id: int, f: IngestionRow -> IngestionRow)
      requires Valid()
      requires forall x :: f(x).id == x.id
      modifies this
      ensures Valid() && nextId == old(nextId)
      ensures rows == Map(old(rows), (x: IngestionRow) => if x.id == id then f(x) else x)
      ensures forall k :: 0 <= k < |rows| && old(rows)[k].id != id ==> rows[k] == old(rows)[k]
    {
      var g := (x: IngestionRow) => if x.id == id then f(x) else x;
      var updated := Map(rows, g);
      KeysDistinctRewrite(rows, updated, (x: IngestionRow) => x.id);
      forall x | x in updated ensures x.id < nextId {
        var k :| 0 <= k < |updated| && updated[k] == x;
        assert rows[k] in rows;
      }
      rows := updated;
    }

    /** `attach_material(ingestion_id, material_id, status)`: only the
        material and the status of that record change. */
    method AttachMaterial(id: int, materialId: int, status: string)
      requires Valid()
      modifies this
      ensures Valid() && nextId == old(nextId)
      ensures rows == Map(old(rows), (x: IngestionRow) => if x.id == id then x.(materialId := Some(materialId), status := status) else x)
      ensures forall k :: 0 <= k < |rows| && old(rows)[k].id != id ==> rows[k] == old(rows)[k]
    {
      Rewrite(id, (x: IngestionRow) => x.(materialId := Some(materialId), status := status));
    }

    /** `update_ingestion_status(ingestion_id, status)`: only the status of
        that record changes. */
    method UpdateIngestionStatus(id: int, status: string)
      requires Valid()
      modifies this
      ensures Valid() && nextId == old(nextId)
      ensures rows == Map(old(rows), (x: IngestionRow) => if x.id == id then x.(status := status) else x)
      ensures forall k :: 0 <= k < |rows| && old(rows)[k].id != id ==> rows[k] == old(rows)[k]
    {
      Rewrite(id, (x: IngestionRow) => x.(status := status));
    }

    /** `delete_ingestion(ingestion_id)`: that record is gone, the others
        stay in order. */
    method DeleteIngestion(id: int)
      requires Valid()
      modifies this
      ensures Valid() && nextId == old(nextId)
      ensures rows == Filter(old(rows), (x: IngestionRow) => x.id != id)
      ensures First(rows, IdIs(id)).None?
      ensures forall x :: x in old(rows) && x.id != id ==> x in rows
    {
      KeysDistinctFilter(rows, (x: IngestionRow) => x.id, (x: IngestionRow) => x.id != id);
      rows := Filter(rows, (x: IngestionRow) => x.id != id);
    }

    /** `delete_old_pending_ingestions(hours)` at time `now`: the pending
        records created more than `hours` hours ago are deleted and their
        number returned; every other record stays. */
    method DeleteOldPendingIngestions(now: int, hours: nat) returns (count: nat)
      requires Valid()
      modifies this
      ensures Valid() && nextId == old(nextId)
      ensures rows == Filter(old(rows), Kept(now - hours * 3600))
      ensures forall x :: x in rows ==> !Expired(now - hours * 3600, x)
      ensures forall x :: x in old(rows) && !Expired(now - hours * 3600, x) ==> x in rows
      ensures count == |old(rows)| - |rows|
    {
      var cutoff := now - hours * 3600;
      KeysDistinctFilter(rows, (x: IngestionRow) => x.id, Kept(cutoff));
      var kept := Filter(rows, Kept(cutoff));
      count := |rows| - |kept|;
      rows := kept;
    }
  }

  /** A record reaches the pending list once attached as pending to an
      existing material, and leaves it once its status is set to anything
      else. */
  lemma AttachedPendingIsListed(materials: seq<Materials.MaterialRow>, i: IngestionRow, materialId: int, status: string)
    requires exists m :: m in materials && m.id == materialId
    ensures Listed(materials, i.(materialId := Some(materialId), status := status)) <==> status == Pending
  {
  }
}
