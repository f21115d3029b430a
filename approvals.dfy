/** The approver's side of the upload flow: `/approvals` lists the pending
    ingestions with Approve and Reject buttons, and a press on one of them
    copies the upload into the archive channel or discards it. */
module Approvals {
  import opened Wrappers
  import opened Seqs
  import Callbacks
  import A = Admins
  import M = Materials
  import I = Ingestions

  const Approve := "appr"
  const Reject := "rej"
  const ReplaceAction := "replace"
  const Approved := "approved"

  /** `user and is_admin(user.id, APPROVE_CONTENT)`. */
  predicate MayApprove(cfg: A.Config, admins: seq<A.AdminRow>, user: Option<int>) {
    user.Some? && A.IsAdmin(cfg, admins, user.value, Some(A.ApproveContent), None)
  }

  /** One message of the list: the upload copied from its chat, with its
      two buttons. */
  datatype PendingEntry = PendingEntry(view: I.PendingView, approveLabel: string, approveData: string, rejectData: string)

  function ApproveLabel(action: string): string {
    if action == ReplaceAction then "Approve استبدال" else "Approve"
  }

  function Entry(v: I.PendingView): PendingEntry {
    PendingEntry(v, ApproveLabel(v.action), Callbacks.DecisionData(Approve, v.id), Callbacks.DecisionData(Reject, v.id))
  }

  /** `list_pending`: `None` for a user who may not approve; otherwise an
      entry for every pending ingestion whose material exists, each of
      whose buttons reads back as its decision on that ingestion. */
  function ListPending(cfg: A.Config, admins: seq<A.AdminRow>, user: Option<int>,
                       rows: seq<I.IngestionRow>, materials: seq<M.MaterialRow>): (r: Option<seq<PendingEntry>>)
    ensures r.None? <==> !MayApprove(cfg, admins, user)
    ensures r.Some? ==>
      forall e :: e in r.value <==> exists i :: i in rows && I.Listed(materials, i) && e == Entry(I.PendingRow(materials)(i))
    ensures r.Some? ==>
      forall e :: e in r.value ==>
        Callbacks.ParseDecision(e.approveData) == Some((Approve, e.view.id))
        && Callbacks.ParseDecision(e.rejectData) == Some((Reject, e.view.id))
  {
    if !MayApprove(cfg, admins, user) then None
    else
      var views := I.ListPendingIngestions(rows, materials);
      EntriesOf(views, rows, materials);
      Some(Map(views, Entry))
  }

  /** The entries made from the listed views: one per listed ingestion,
      each with buttons that read back as their decision. */
  lemma EntriesOf(views: seq<I.PendingView>, rows: seq<I.IngestionRow>, materials: seq<M.MaterialRow>)
    requires forall v :: v in views <==> exists i :: i in rows && I.Listed(materials, i) && v == I.PendingRow(materials)(i)
    ensures forall e :: e in Map(views, Entry) <==>
      exists i :: i in rows && I.Listed(materials, i) && e == Entry(I.PendingRow(materials)(i))
    ensures forall e :: e in Map(views, Entry) ==>
      Callbacks.ParseDecision(e.approveData) == Some((Approve, e.view.id))
      && Callbacks.ParseDecision(e.rejectData) == Some((Reject, e.view.id))
  {
    var entries := Map(views, Entry);
    MapMembers(views, Entry);
    forall e ensures e in entries <==> exists i :: i in rows && I.Listed(materials, i) && e == Entry(I.PendingRow(materials)(i)) {
      if e in entries {
        var v :| v in views && Entry(v) == e;
        var i :| i in rows && I.Listed(materials, i) && v == I.PendingRow(materials)(i);
      }
      if exists i :: i in rows && I.Listed(materials, i) && e == Entry(I.PendingRow(materials)(i)) {
        var i :| i in rows && I.Listed(materials, i) && e == Entry(I.PendingRow(materials)(i));
        assert I.PendingRow(materials)(i) in views;
      }
    }
    forall e | e in entries
      ensures Callbacks.ParseDecision(e.approveData) == Some((Approve, e.view.id))
      ensures Callbacks.ParseDecision(e.rejectData) == Some((Reject, e.view.id))
    {
      var v :| v in views && Entry(v) == e;
      EntryReadsBack(v);
    }
  }

  /** Both buttons of an entry read back as their decision on its
      ingestion. */
  lemma EntryReadsBack(v: I.PendingView)
    ensures Callbacks.ParseDecision(Entry(v).approveData) == Some((Approve, v.id))
    ensures Callbacks.ParseDecision(Entry(v).rejectData) == Some((Reject, v.id))
  {
    Callbacks.DecisionRoundTrip(Approve, v.id);
    Callbacks.DecisionRoundTrip(Reject, v.id);
  }

  /** What a press on Approve or Reject leads to: the copy into the archive
      (from which chat, which message) and the old stored copy deleted, or
      the rejection and whether the material went with it. */
  datatype Decision =
    | Refused
    | Malformed
    | Unknown
    | Accepted(copyFromChat: Option<int>, copyMessage: Option<int>, deleteOld: Option<(int, int)>)
    | Rejected(materialDeleted: bool)

  /** Python's truth value of an optional id: present and not zero. */
  predicate Truthy(o: Option<int>) {
    o.Some? && o.value != 0
  }

  /** The decision on ingestion `info`: the message copied is the new
      upload for a replacement and the original source message otherwise;
      a replacement also deletes the copy stored before, when there is
      one. */
  function Outcome(action: string, info: I.IngestionMaterial): Decision {
    if action == Approve then
      Accepted(info.sourceChatId,
               if info.action == ReplaceAction then Some(info.messageId) else info.sourceMessageId,
               if info.action == ReplaceAction && Truthy(info.storageChatId) && Truthy(info.storageMsgId)
               then Some((info.storageChatId.value, info.storageMsgId.value)) else None)
    else Rejected(info.action != ReplaceAction)
  }

  /** An ingestion no row of which is still pending is not in the list. */
  lemma NotPendingNotListed(rows: seq<I.IngestionRow>, materials: seq<M.MaterialRow>, id: int)
    requires forall i :: i in rows && i.id == id ==> i.status != I.Pending
    ensures forall v :: v in I.ListPendingIngestions(rows, materials) ==> v.id != id
  {
  }

  /** Setting the status of one ingestion sets it on every row with its id. */
  lemma StatusSet(rows: seq<I.IngestionRow>, id: int, status: string)
    ensures forall i :: i in Map(rows, (x: I.IngestionRow) => if x.id == id then x.(status := status) else x) && i.id == id ==>
      i.status == status
  {
    var after := Map(rows, (x: I.IngestionRow) => if x.id == id then x.(status := status) else x);
    forall i | i in after && i.id == id ensures i.status == status {
      var k :| 0 <= k < |after| && after[k] == i;
    }
  }

  /** `handle_decision` pressed by `user` with the button's data; `archive`
      is the archive channel and `copiedId` the id the copy gets there.
      Only an approver may decide, on an ingestion whose material exists.
      Approving moves the material's stored copy to the new message in the
      archive and marks the ingestion approved; rejecting deletes the
      ingestion and, unless it was a replacement, its material. Either way
      the ingestion leaves the pending list. */
  method HandleDecision(materials: M.MaterialStore, ingestions: I.IngestionStore, cfg: A.Config,
                        admins: seq<A.AdminRow>, user: Option<int>, buttonData: string,
                        archive: int, copiedId: int) returns (d: Decision)
    requires materials.Valid() && ingestions.Valid()
    modifies materials, ingestions
    ensures materials.Valid() && ingestions.Valid()
    ensures !MayApprove(cfg, admins, user) ==> d == Refused && unchanged(materials, ingestions)
    ensures MayApprove(cfg, admins, user) && Callbacks.ParseDecision(buttonData).None? ==>
      d == Malformed && unchanged(materials, ingestions)
    ensures MayApprove(cfg, admins, user) && Callbacks.ParseDecision(buttonData).Some? ==>
      var (action, id) := Callbacks.ParseDecision(buttonData).value;
      var info := I.GetIngestionMaterial(old(ingestions.rows), old(materials.rows), id);
      (info.None? ==> d == Unknown && unchanged(materials, ingestions))
      && (info.Some? ==>
            d == Outcome(action, info.value)
            && forall v :: v in I.ListPendingIngestions(ingestions.rows, materials.rows) ==> v.id != id)
      && (info.Some? && action == Approve ==>
            materials.rows == Map(old(materials.rows), (x: M.MaterialRow) =>
              if x.id == info.value.materialId
              then M.MaterialRow(info.value.materialId, M.WithStorage(x.m, archive, copiedId, info.value.fileUniqueId))
              else x)
            && ingestions.rows == Map(old(ingestions.rows), (x: I.IngestionRow) => if x.id == id then x.(status := Approved) else x)
            && M.GetMaterial(materials.rows, info.value.materialId).Some?
            && M.GetMaterial(materials.rows, info.value.materialId).value.m.storageMsgId == Some(copiedId))
      && (info.Some? && action != Approve ==>
            ingestions.rows == Filter(old(ingestions.rows), (x: I.IngestionRow) => x.id != id)
            && (info.value.action == ReplaceAction ==> unchanged(materials))
            && (info.value.action != ReplaceAction ==>
                  materials.rows == Filter(old(materials.rows), (x: M.MaterialRow) => x.id != info.value.materialId)
                  && M.GetMaterial(materials.rows, info.value.materialId).None?))
  {
    if !MayApprove(cfg, admins, user) {
      return Refused;
    }
    var parsed := Callbacks.ParseDecision(buttonData);
    if parsed.None? {
      return Malformed;
    }
    var (action, id) := parsed.value;
    var found := I.GetIngestionMaterial(ingestions.rows, materials.rows, id);
    if found.None? {
      return Unknown;
    }
    var info := found.value;
    d := Outcome(action, info);
    if action == Approve {
      Accept(materials, ingestions, id, info, archive, copiedId);
    } else {
      Discard(materials, ingestions, id, info);
    }
  }

  /** The rejection of ingestion `id`: the ingestion is deleted and, unless
      it was a replacement, its material with it. */
  method Discard(materials: M.MaterialStore, ingestions: I.IngestionStore, id: int, info: I.IngestionMaterial)
    requires materials.Valid() && ingestions.Valid()
    modifies materials, ingestions
    ensures materials.Valid() && ingestions.Valid()
    ensures ingestions.rows == Filter(old(ingestions.rows), (x: I.IngestionRow) => x.id != id)
    ensures info.action == ReplaceAction ==> unchanged(materials)
    ensures info.action != ReplaceAction ==>
      materials.rows == Filter(old(materials.rows), (x: M.MaterialRow) => x.id != info.materialId)
      && M.GetMaterial(materials.rows, info.materialId).None?
    ensures forall v :: v in I.ListPendingIngestions(ingestions.rows, materials.rows) ==> v.id != id
  {
    if info.action != ReplaceAction {
      materials.DeleteMaterial(info.materialId);
    }
    ingestions.DeleteIngestion(id);
    NotPendingNotListed(ingestions.rows, materials.rows, id);
  }

  /** The approval of ingestion `id`: the material's stored copy becomes
      the archive message and the ingestion is marked approved. */
  method Accept(materials: M.MaterialStore, ingestions: I.IngestionStore, id: int, info: I.IngestionMaterial,
                archive: int, copiedId: int)
    requires materials.Valid() && ingestions.Valid()
    requires exists m :: m in materials.rows && m.id == info.materialId
    modifies materials, ingestions
    ensures materials.Valid() && ingestions.Valid()
    ensures materials.rows == Map(old(materials.rows), (x: M.MaterialRow) =>
      if x.id == info.materialId then M.MaterialRow(info.materialId, M.WithStorage(x.m, archive, copiedId, info.fileUniqueId)) else x)
    ensures ingestions.rows == Map(old(ingestions.rows), (x: I.IngestionRow) => if x.id == id then x.(status := Approved) else x)
    ensures M.GetMaterial(materials.rows, info.materialId).Some?
    ensures M.GetMaterial(materials.rows, info.materialId).value.m.storageMsgId == Some(copiedId)
    ensures forall v :: v in I.ListPendingIngestions(ingestions.rows, materials.rows) ==> v.id != id
  {
    M.StorageUpdateReadBack(materials.rows, materials.nextId, info.materialId, info.materialId,
                            archive, copiedId, info.fileUniqueId);
    materials.UpdateMaterialStorage(info.materialId, archive, copiedId, info.fileUniqueId);
    ingestions.UpdateIngestionStatus(id, Approved);
    StatusSet(old(ingestions.rows), id, Approved);
    NotPendingNotListed(ingestions.rows, materials.rows, id);
  }
}
