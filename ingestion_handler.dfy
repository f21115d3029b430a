/** The upload flow: an admin posts a file with hashtags in a bound topic;
    the bot checks who sent it and where, and either records an attendance
    sheet, asks whether to replace an earlier copy of the same lecture, or
    stores a new material with a pending ingestion for an approver. Replies
    and notifications are the `Reply` values; `context.user_data` is the
    per-user `UserData`. */
module IngestionHandler {
  import opened Wrappers
  import opened Seqs
  import Text
  import Callbacks
  import A = Admins
  import L = Linking
  import Subjects
  import M = Materials
  import I = Ingestions
  import HP = HashtagParser

  const Attendance := "attendance"
  const Lecture := "lecture"
  const Replace := "replace"
  const Cancel := "cancel"

  /** The categories that belong to a lecture and make one exist. */
  const AttachmentCategories: seq<string> :=
    ["board_images", "slides", "audio", "video", "mind_map", "transcript", "related"]

  /** The role a lecturer gets when the upload creates them. */
  const DefaultLecturerRole := "lecturer"

  /** The parts of `update.effective_message` the handler reads. */
  datatype Message = Message(chatId: int, messageId: int, threadId: Option<int>, fileUniqueId: Option<string>)

  /** An incoming update: the message, and the effective user and chat,
      either of which may be missing. */
  datatype Update = Update(message: Message, user: Option<int>, chat: Option<int>)

  /** The tables the checks read. */
  datatype Env = Env(cfg: A.Config, admins: seq<A.AdminRow>, groups: seq<L.GroupRow>,
                     topics: seq<L.TopicRow>, subjects: seq<Subjects.SubjectRow>)

  /** What the handler answers, one constructor per message it sends. */
  datatype Reply =
    | ParseFailed(error: HP.ParseError)
    | NoUser
    | NotAdmin
    | NoUploadRight
    | NoChat
    | UnknownGroup
    | NeedsBinding
    | UnknownCategory
    | AttendanceReceived
    | DuplicateFound(materialId: int)
    | Received(ingestionId: int)

  // ----- the checks before anything is written ---------------------------------

  /** The sender is an admin whose mask has the upload bit (the owner has
      every bit). */
  predicate MayUpload(env: Env, user: int) {
    var a := A.GetAdminWithPermissions(env.cfg, env.admins, user);
    a.Some? && A.BitAnd(a.value.1, A.UploadContent) != 0
  }

  /** Where the checks lead: a refusal, an attendance sheet for the group's
      term, or an upload bound to a subject through the topic. */
  datatype Gate =
    | Stop(reply: Reply)
    | ToAttendance(termId: Option<int>, chat: int)
    | ToUpload(user: int, adminId: int, chat: int, thread: int, binding: L.Binding, category: string)

  /** The checks of `ingestion_handler` in their order: the hashtags parse,
      the user exists, is an admin, may upload, the chat exists and is a
      known group; anything but attendance needs a topic bound to a subject
      and a recognised category. */
  function Admit(env: Env, u: Update, info: HP.ParsedHashtags, err: Option<HP.ParseError>): (g: Gate)
    ensures err.Some? ==> g == Stop(ParseFailed(err.value))
    ensures g == Stop(NoUser) <==> err.None? && u.user.None?
    ensures !g.Stop? ==>
      err.None? && u.user.Some? && MayUpload(env, u.user.value)
      && u.chat.Some? && L.GetGroupIdByChat(env.groups, u.chat.value).Some?
    ensures g.ToAttendance? <==> !g.Stop? && info.contentType == Some(Attendance)
    ensures g.ToAttendance? ==> g == ToAttendance(L.GetGroupIdByChat(env.groups, u.chat.value).value.2, u.chat.value)
    ensures g.ToUpload? ==>
      g.user == u.user.value && g.chat == u.chat.value && g.category != Attendance
      && info.contentType == Some(g.category) && u.message.threadId == Some(g.thread)
      && L.GetBinding(env.groups, env.topics, env.subjects, g.chat, g.thread) == Some(g.binding)
      && g.adminId == A.GetAdminWithPermissions(env.cfg, env.admins, g.user).value.0
    ensures (err.None? && u.user.Some? && MayUpload(env, u.user.value) && u.chat.Some?
             && L.GetGroupIdByChat(env.groups, u.chat.value).Some? && info.contentType.Some?
             && info.contentType != Some(Attendance) && u.message.threadId.Some?
             && L.GetBinding(env.groups, env.topics, env.subjects, u.chat.value, u.message.threadId.value).Some?) ==>
      g.ToUpload?
  {
    if err.Some? then Stop(ParseFailed(err.value))
    else if u.user.None? then Stop(NoUser)
    else
      var user := u.user.value;
      match A.GetAdminWithPermissions(env.cfg, env.admins, user)
      case None => Stop(NotAdmin)
      case Some((adminId, permissions)) =>
        if A.BitAnd(permissions, A.UploadContent) == 0 then Stop(NoUploadRight)
        else if u.chat.None? then Stop(NoChat)
        else
          var chat := u.chat.value;
          match L.GetGroupIdByChat(env.groups, chat)
          case None => Stop(UnknownGroup)
          case Some(group) =>
            if info.contentType == Some(Attendance) then ToAttendance(group.2, chat)
            else if u.message.threadId.None? then Stop(NeedsBinding)
            else
              var thread := u.message.threadId.value;
              match L.GetBinding(env.groups, env.topics, env.subjects, chat, thread)
              case None => Stop(NeedsBinding)
              case Some(binding) =>
                if info.contentType.None? then Stop(UnknownCategory)
                else ToUpload(user, adminId, chat, thread, binding, info.contentType.value)
  }

  /** The binding is checked before the category, so an upload without a
      recognised category in a topic that is not bound is answered as
      needing a binding. */
  lemma BindingCheckedBeforeCategory(env: Env, u: Update, info: HP.ParsedHashtags)
    requires u.user.Some? && MayUpload(env, u.user.value) && u.chat.Some?
    requires L.GetGroupIdByChat(env.groups, u.chat.value).Some?
    requires info.contentType.None?
    requires u.message.threadId.None? ||
      L.GetBinding(env.groups, env.topics, env.subjects, u.chat.value, u.message.threadId.value).None?
    ensures Admit(env, u, info, None) == Stop(NeedsBinding)
  {
  }

  // ----- titles -------------------------------------------------------------------

  /** The categories whose stored title is the lecture title. */
  predicate IsLectureKind(category: Option<string>) {
    category == Some(Lecture) || (category.Some? && category.value in AttachmentCategories)
  }

  /** How an f-string renders an optional number or text: `None` as the
      word. */
  function ShowNumber(o: Option<int>): string {
    if o.None? then "None" else Text.IntToString(o.value)
  }

  function ShowText(o: Option<string>): string {
    if o.None? then "None" else o.value
  }

  /** `info.title or ""`. */
  function Title(info: HP.ParsedHashtags): string {
    info.title.GetOr("")
  }

  /** `lecture_title`: `f"محاضرة {lecture_no}: {title}"` for a lecture and
      its attachments, the plain title otherwise. */
  function LectureTitle(info: HP.ParsedHashtags): string {
    if IsLectureKind(info.contentType) then "محاضرة " + ShowNumber(info.lectureNo) + ": " + ShowText(info.title)
    else Title(info)
  }

  /** `alt_title`: the plain title, when it differs from the lecture title. */
  function AltTitle(info: HP.ParsedHashtags): (r: Option<string>)
    ensures r.Some? <==> LectureTitle(info) != Title(info)
    ensures r.Some? ==> r.value == Title(info)
  {
    if LectureTitle(info) != Title(info) then Some(Title(info)) else None
  }

  /** The rendering of a lecture number reads back as that number, so two
      numbers never render alike. */
  lemma ShowNumberInjective(a: Option<int>, b: Option<int>)
    ensures ShowNumber(a) == ShowNumber(b) ==> a == b
    ensures ':' !in ShowNumber(a)
  {
    ShowNumberReadsBack(a);
    ShowNumberReadsBack(b);
    if a.Some? {
      Callbacks.NumeralHasNoColon(a.value);
    }
  }

  lemma ShowNumberReadsBack(a: Option<int>)
    ensures Callbacks.ParseInt(ShowNumber(a)) == a
  {
    if a.Some? {
      Callbacks.ParseIntToString(a.value);
    } else {
      assert !Text.IsDigit('N');
    }
  }

  /** Two texts that agree once the first colon of each is reached agree
      before it. */
  lemma SameBeforeColon(x: string, y: string, restA: string, restB: string)
    requires ':' !in x && ':' !in y
    requires x + [':'] + restA == y + [':'] + restB
    ensures x == y
  {
    Callbacks.IndexOfSeparator(x, ':', restA);
    Callbacks.IndexOfSeparator(y, ':', restB);
    assert x == (x + [':'] + restA)[..|x|];
    assert y == (y + [':'] + restB)[..|y|];
  }

  /** Two texts that differ before their first colon differ. */
  lemma DifferBeforeColon(prefix: string, x: string, y: string, restA: string, restB: string)
    requires ':' !in x && ':' !in y && x != y
    ensures prefix + x + ": " + restA != prefix + y + ": " + restB
  {
    var sa, sb := x + [':'] + ([' '] + restA), y + [':'] + ([' '] + restB);
    assert prefix + x + ": " + restA == prefix + sa;
    assert prefix + y + ": " + restB == prefix + sb;
    if prefix + sa == prefix + sb {
      assert sa == (prefix + sa)[|prefix|..];
      assert sb == (prefix + sb)[|prefix|..];
      SameBeforeColon(x, y, [' '] + restA, [' '] + restB);
    }
  }

  /** Uploads of two different lectures never share a lecture title: the
      number sits before the first colon and reads back unchanged. */
  lemma LectureNumbersKeepTitlesApart(a: HP.ParsedHashtags, b: HP.ParsedHashtags)
    requires IsLectureKind(a.contentType) && IsLectureKind(b.contentType)
    requires a.lectureNo != b.lectureNo
    ensures LectureTitle(a) != LectureTitle(b)
  {
    ShowNumberInjective(a.lectureNo, b.lectureNo);
    ShowNumberInjective(b.lectureNo, a.lectureNo);
    DifferBeforeColon("محاضرة ", ShowNumber(a.lectureNo), ShowNumber(b.lectureNo), ShowText(a.title), ShowText(b.title));
  }

  // ----- the duplicate lookup -----------------------------------------------------

  /** What the handler looks an upload up by. */
  datatype Lookup = Lookup(subjectId: int, section: Option<string>, category: string, title: string,
                           altTitle: Option<string>, yearId: Option<int>, lecturerId: Option<int>)

  /** The lookup the handler means by `find_exact(..., alt_title=...)`:
      same subject, section and category (a missing section matching only a
      missing one), the title equal to the lookup title or to the
      alternative, and year and lecturer equal, a missing one matching only
      a missing one. */
  predicate Matches(m: M.Material, k: Lookup) {
    m.subjectId == k.subjectId && m.section == k.section && m.category == Some(k.category)
    && (m.title == k.title || Some(m.title) == k.altTitle)
    && m.yearId == k.yearId && m.lecturerId == k.lecturerId
  }

  function MatchesRow(k: Lookup): M.MaterialRow -> bool {
    (x: M.MaterialRow) => Matches(x.m, k)
  }

  /** The id of the first stored material the lookup matches. */
  function FindDuplicate(rows: seq<M.MaterialRow>, k: Lookup): (r: Option<int>)
    ensures r.None? <==> forall x :: x in rows ==> !Matches(x.m, k)
    ensures r.Some? ==> exists x :: x in rows && x.id == r.value && Matches(x.m, k)
  {
    match First(rows, MatchesRow(k))
    case None => None
    case Some(x) => Some(x.id)
  }

  /** `str(year)` when the year is given and not zero. */
  function YearName(info: HP.ParsedHashtags): Option<string> {
    if info.year.Some? && info.year.value != 0 then Some(Text.IntToString(info.year.value)) else None
  }

  /** The lecturer's name when given and not empty. */
  function LecturerName(info: HP.ParsedHashtags): Option<string> {
    if info.lecturer.Some? && info.lecturer.value != "" then info.lecturer else None
  }

  /** The year and lecturer ids the upload is filed under, read from the
      name tables once the handler has made sure the names exist. */
  function YearIdFor(years: seq<M.YearRow>, info: HP.ParsedHashtags): Option<int> {
    if YearName(info).None? then None else M.YearIdByName(years, YearName(info).value)
  }

  function LecturerIdFor(lecturers: seq<M.LecturerRow>, info: HP.ParsedHashtags): Option<int> {
    if LecturerName(info).None? then None else M.LecturerIdByName(lecturers, LecturerName(info).value)
  }

  /** The name tables after the get-or-create of a name: unchanged when the
      name is absent or known, one new row under the next id otherwise. */
  function YearsAfter(years: seq<M.YearRow>, nextId: int, info: HP.ParsedHashtags): seq<M.YearRow> {
    if YearName(info).None? || M.YearIdByName(years, YearName(info).value).Some? then years
    else years + [M.YearRow(nextId, YearName(info).value)]
  }

  function LecturersAfter(lecturers: seq<M.LecturerRow>, nextId: int, info: HP.ParsedHashtags): seq<M.LecturerRow> {
    if LecturerName(info).None? || M.LecturerIdByName(lecturers, LecturerName(info).value).Some? then lecturers
    else lecturers + [M.LecturerRow(nextId, LecturerName(info).value, DefaultLecturerRole)]
  }

  /** The lookup of an upload that passed the checks. */
  function LookupFor(g: Gate, info: HP.ParsedHashtags, yearId: Option<int>, lecturerId: Option<int>): Lookup
    requires g.ToUpload?
  {
    Lookup(g.binding.subjectId, g.binding.section, g.category, LectureTitle(info), AltTitle(info), yearId, lecturerId)
  }

  /** The lookup of the lecture an attachment belongs to. */
  function LectureLookup(k: Lookup): Lookup {
    k.(category := Lecture)
  }

  /** The material stored for an upload: the lecture title, the taxonomy
      of the binding, the source message and the admin. */
  function UploadMaterial(g: Gate, u: Update, k: Lookup): M.Material
    requires g.ToUpload?
  {
    M.Material(k.subjectId, None, None, None, k.title, None, k.yearId, k.lecturerId, None, None, None, None,
               u.message.fileUniqueId, Some(g.chat), Some(g.thread), Some(u.message.messageId), Some(g.adminId),
               k.section, Some(k.category))
  }

  /** The lecture an attachment creates when none is stored yet: no file,
      no source, only the admin. */
  function LectureMaterial(g: Gate, k: Lookup): M.Material
    requires g.ToUpload?
  {
    M.Material(k.subjectId, None, None, None, k.title, None, k.yearId, k.lecturerId, None, None, None, None,
               None, None, None, None, Some(g.adminId), k.section, Some(Lecture))
  }

  /** The stored material answers its own lookup, and a lecture created
      for an attachment answers the attachment's lecture lookup. */
  lemma StoredMaterialsMatch(g: Gate, u: Update, k: Lookup)
    requires g.ToUpload?
    ensures Matches(UploadMaterial(g, u, k), k)
    ensures Matches(LectureMaterial(g, k), LectureLookup(k))
  {
  }

  /** The materials a new upload appends: its own and, for an attachment
      whose lecture is not stored, that lecture. */
  function NewMaterials(rows: seq<M.MaterialRow>, nextId: int, g: Gate, u: Update, k: Lookup): seq<M.MaterialRow>
    requires g.ToUpload?
  {
    var own := M.MaterialRow(nextId, UploadMaterial(g, u, k));
    if g.category in AttachmentCategories && FindDuplicate(rows + [own], LectureLookup(k)).None? then
      [own, M.MaterialRow(nextId + 1, LectureMaterial(g, k))]
    else [own]
  }

  // ----- per-user state -----------------------------------------------------------

  /** What the duplicate prompt remembers for the decision. */
  datatype ReplaceCtx = ReplaceCtx(
    oldMaterialId: int, chatId: int, threadId: Option<int>, adminId: int, tgUserId: int,
    subjectName: string, section: Option<string>, category: string, title: string,
    year: Option<int>, yearId: Option<int>, lecturerId: Option<int>, lecturerName: Option<string>,
    fileUniqueId: Option<string>)

  /** Every remembered prompt sits in the data of the user who sent the
      upload. */
  ghost predicate OwnEntries(ctx: map<int, map<int, ReplaceCtx>>) {
    forall user, msg :: user in ctx && msg in ctx[user] ==> ctx[user][msg].tgUserId == user
  }

  /** Remembering a prompt in its sender's data, or forgetting one, keeps
      every prompt with its sender. */
  lemma RememberKeepsOwnEntries(ctx: map<int, map<int, ReplaceCtx>>, user: int, msg: int, c: ReplaceCtx)
    requires OwnEntries(ctx) && c.tgUserId == user
    ensures OwnEntries(ctx[user := (if user in ctx then ctx[user] else map[])[msg := c]])
  {
  }

  lemma ForgetKeepsOwnEntries(ctx: map<int, map<int, ReplaceCtx>>, user: int, msg: int)
    requires OwnEntries(ctx)
    ensures OwnEntries(ctx[user := (if user in ctx then ctx[user] else map[]) - {msg}])
  {
  }

  /** `context.user_data["replace_ctx"]` of every user: for each user, the
      pending duplicate prompts by message id. */
  class UserData {
    var replaceCtx: map<int, map<int, ReplaceCtx>>

    constructor ()
      ensures replaceCtx == map[]
    {
      replaceCtx := map[];
    }

    /** The prompts of one user; none when the user has no data yet. */
    function Pending(user: int): map<int, ReplaceCtx> reads this {
      if user in replaceCtx then replaceCtx[user] else map[]
    }

    /** `user_data.setdefault("replace_ctx", {})[msg] = c`. */
    method Remember(user: int, msg: int, c: ReplaceCtx)
      modifies this
      ensures replaceCtx == old(replaceCtx)[user := old(Pending(user))[msg := c]]
      ensures Pending(user)[msg] == c
    {
      replaceCtx := replaceCtx[user := Pending(user)[msg := c]];
    }

    /** `ctx.pop(msg, None)`. */
    method Forget(user: int, msg: int)
      modifies this
      ensures replaceCtx == old(replaceCtx)[user := old(Pending(user)) - {msg}]
      ensures msg !in Pending(user)
    {
      replaceCtx := replaceCtx[user := Pending(user) - {msg}];
    }
  }

  /** An attendance sheet the handler files for the group's term. */
  datatype AttendanceRecord = AttendanceRecord(termId: Option<int>, chatId: int, messageId: int)

  /** The attendance sheets received, in order. */
  class AttendanceLog {
    var records: seq<AttendanceRecord>

    constructor ()
      ensures records == []
    {
      records := [];
    }

    method Record(r: AttendanceRecord)
      modifies this
      ensures records == old(records) + [r]
    {
      records := records + [r];
    }
  }

  // ----- the handler ----------------------------------------------------------------

  /** The prompt remembered for a duplicate upload. */
  function CtxFor(g: Gate, u: Update, info: HP.ParsedHashtags, k: Lookup, oldId: int): ReplaceCtx
    requires g.ToUpload?
  {
    ReplaceCtx(oldId, g.chat, Some(g.thread), g.adminId, g.user, g.binding.subjectName, k.section, k.category,
               Title(info), info.year, k.yearId, k.lecturerId, info.lecturer, u.message.fileUniqueId)
  }

  /** The ingestion a new upload records: pending, an addition, attached to
      the material just stored. */
  function NewIngestion(id: int, g: Gate, u: Update, materialId: int, now: int): I.IngestionRow
    requires g.ToUpload?
  {
    I.IngestionRow(id, u.message.messageId, g.adminId, I.Pending, I.Add, u.message.fileUniqueId, Some(materialId), now)
  }

  /** `ingestion_handler` on an update whose hashtags parsed to `info` and
      `err`, at time `now`. A refused update changes nothing; an attendance
      sheet is filed; an upload makes sure its year and lecturer exist and
      then either remembers a duplicate prompt for the sender or stores the
      material (and the lecture of an attachment) with a pending ingestion
      that the approval list shows. */
  method HandleUpload(log: AttendanceLog, data: UserData, names: M.NameStore, materials: M.MaterialStore,
                      ingestions: I.IngestionStore, env: Env, u: Update, info: HP.ParsedHashtags,
                      err: Option<HP.ParseError>, now: int) returns (reply: Reply)
    requires names.Valid() && materials.Valid() && ingestions.Valid()
    modifies log, data, names, materials, ingestions
    ensures names.Valid() && materials.Valid() && ingestions.Valid()
    ensures OwnEntries(old(data.replaceCtx)) ==> OwnEntries(data.replaceCtx)
    ensures Admit(env, u, info, err).Stop? ==>
      reply == Admit(env, u, info, err).reply && unchanged(log, data, names, materials, ingestions)
    ensures Admit(env, u, info, err).ToAttendance? ==>
      var g := Admit(env, u, info, err);
      reply == AttendanceReceived && log.records == old(log.records) + [AttendanceRecord(g.termId, g.chat, u.message.messageId)]
      && unchanged(data, names, materials, ingestions)
    ensures Admit(env, u, info, err).ToUpload? ==>
      var g := Admit(env, u, info, err);
      var k := LookupFor(g, info, YearIdFor(names.years, info), LecturerIdFor(names.lecturers, info));
      var dup := FindDuplicate(old(materials.rows), k);
      unchanged(log)
      && names.years == YearsAfter(old(names.years), old(names.nextYearId), info)
      && names.lecturers == LecturersAfter(old(names.lecturers), old(names.nextLecturerId), info)
      && (dup.Some? ==>
            reply == DuplicateFound(dup.value) && unchanged(materials, ingestions)
            && data.replaceCtx == old(data.replaceCtx)[g.user := old(data.Pending(g.user))[u.message.messageId := CtxFor(g, u, info, k, dup.value)]])
      && (dup.None? ==>
            reply == Received(old(ingestions.nextId)) && data.replaceCtx == old(data.replaceCtx)
            && materials.rows == old(materials.rows) + NewMaterials(old(materials.rows), old(materials.nextId), g, u, k)
            && ingestions.rows == old(ingestions.rows) + [NewIngestion(old(ingestions.nextId), g, u, old(materials.nextId), now)]
            && FindDuplicate(materials.rows, k) == Some(old(materials.nextId))
            && I.Listed(materials.rows, ingestions.rows[|ingestions.rows| - 1])
            && (g.category in AttachmentCategories ==> FindDuplicate(materials.rows, LectureLookup(k)).Some?))
  {
    var g := Admit(env, u, info, err);
    match g {
      case Stop(r) =>
        reply := r;
      case ToAttendance(termId, chat) =>
        log.Record(AttendanceRecord(termId, chat, u.message.messageId));
        reply := AttendanceReceived;
      case ToUpload(_, _, _, _, _, _) =>
        reply := Upload(data, names, materials, ingestions, g, u, info, now);
    }
  }

  /** The part of `ingestion_handler` after the checks, for an upload. */
  method Upload(data: UserData, names: M.NameStore, materials: M.MaterialStore, ingestions: I.IngestionStore,
                g: Gate, u: Update, info: HP.ParsedHashtags, now: int) returns (reply: Reply)
    requires g.ToUpload?
    requires names.Valid() && materials.Valid() && ingestions.Valid()
    modifies data, names, materials, ingestions
    ensures names.Valid() && materials.Valid() && ingestions.Valid()
    ensures OwnEntries(old(data.replaceCtx)) ==> OwnEntries(data.replaceCtx)
    ensures names.years == YearsAfter(old(names.years), old(names.nextYearId), info)
    ensures names.lecturers == LecturersAfter(old(names.lecturers), old(names.nextLecturerId), info)
    ensures var k := LookupFor(g, info, YearIdFor(names.years, info), LecturerIdFor(names.lecturers, info));
      var dup := FindDuplicate(old(materials.rows), k);
      (dup.Some? ==>
         reply == DuplicateFound(dup.value) && unchanged(materials, ingestions)
         && data.replaceCtx == old(data.replaceCtx)[g.user := old(data.Pending(g.user))[u.message.messageId := CtxFor(g, u, info, k, dup.value)]])
      && (dup.None? ==>
         reply == Received(old(ingestions.nextId)) && data.replaceCtx == old(data.replaceCtx)
         && materials.rows == old(materials.rows) + NewMaterials(old(materials.rows), old(materials.nextId), g, u, k)
         && ingestions.rows == old(ingestions.rows) + [NewIngestion(old(ingestions.nextId), g, u, old(materials.nextId), now)]
         && FindDuplicate(materials.rows, k) == Some(old(materials.nextId))
         && I.Listed(materials.rows, ingestions.rows[|ingestions.rows| - 1])
         && (g.category in AttachmentCategories ==> FindDuplicate(materials.rows, LectureLookup(k)).Some?))
  {
    var yearId, lecturerId := ResolveNames(names, info);
    var k := LookupFor(g, info, yearId, lecturerId);
    reply := FileUpload(data, materials, ingestions, g, u, info, k, now);
  }

  /** The upload looked up by `k`: a duplicate prompt remembered for the
      sender, or the upload stored. */
  method FileUpload(data: UserData, materials: M.MaterialStore, ingestions: I.IngestionStore,
                    g: Gate, u: Update, info: HP.ParsedHashtags, k: Lookup, now: int) returns (reply: Reply)
    requires g.ToUpload?
    requires materials.Valid() && ingestions.Valid()
    modifies data, materials, ingestions
    ensures materials.Valid() && ingestions.Valid()
    ensures OwnEntries(old(data.replaceCtx)) ==> OwnEntries(data.replaceCtx)
    ensures var dup := FindDuplicate(old(materials.rows), k);
      (dup.Some? ==>
         reply == DuplicateFound(dup.value) && unchanged(materials, ingestions)
         && data.replaceCtx == old(data.replaceCtx)[g.user := old(data.Pending(g.user))[u.message.messageId := CtxFor(g, u, info, k, dup.value)]])
      && (dup.None? ==>
         reply == Received(old(ingestions.nextId)) && data.replaceCtx == old(data.replaceCtx)
         && materials.rows == old(materials.rows) + NewMaterials(old(materials.rows), old(materials.nextId), g, u, k)
         && ingestions.rows == old(ingestions.rows) + [NewIngestion(old(ingestions.nextId), g, u, old(materials.nextId), now)]
         && FindDuplicate(materials.rows, k) == Some(old(materials.nextId))
         && I.Listed(materials.rows, ingestions.rows[|ingestions.rows| - 1])
         && (g.category in AttachmentCategories ==> FindDuplicate(materials.rows, LectureLookup(k)).Some?))
  {
    var dup := FindDuplicate(materials.rows, k);
    if dup.Some? {
      if OwnEntries(data.replaceCtx) {
        RememberKeepsOwnEntries(data.replaceCtx, g.user, u.message.messageId, CtxFor(g, u, info, k, dup.value));
      }
      data.Remember(g.user, u.message.messageId, CtxFor(g, u, info, k, dup.value));
      return DuplicateFound(dup.value);
    }
    var ingestionId := StoreUpload(materials, ingestions, g, u, k, now);
    reply := Received(ingestionId);
  }

  /** A new upload: its materials stored, then a pending ingestion attached
      to its own material. */
  method StoreUpload(materials: M.MaterialStore, ingestions: I.IngestionStore, g: Gate, u: Update, k: Lookup, now: int)
    returns (ingestionId: int)
    requires g.ToUpload? && materials.Valid() && ingestions.Valid()
    requires FindDuplicate(materials.rows, k).None?
    modifies materials, ingestions
    ensures materials.Valid() && ingestions.Valid()
    ensures ingestionId == old(ingestions.nextId)
    ensures materials.rows == old(materials.rows) + NewMaterials(old(materials.rows), old(materials.nextId), g, u, k)
    ensures ingestions.rows == old(ingestions.rows) + [NewIngestion(ingestionId, g, u, old(materials.nextId), now)]
    ensures FindDuplicate(materials.rows, k) == Some(old(materials.nextId))
    ensures I.Listed(materials.rows, ingestions.rows[|ingestions.rows| - 1])
    ensures g.category in AttachmentCategories ==> FindDuplicate(materials.rows, LectureLookup(k)).Some?
  {
    NewMaterialsFound(materials.rows, materials.nextId, g, u, k);
    var materialId := StoreMaterials(materials, g, u, k);
    ingestionId := OpenIngestion(ingestions, g, u, materialId, now);
    I.AttachedPendingIsListed(materials.rows, ingestions.rows[|ingestions.rows| - 1], materialId, I.Pending);
  }

  /** `insert_ingestion(..., status="pending", action="add", ...)` followed
      by `attach_material(ingestion_id, material_id, "pending")`: one new
      pending row pointing at `materialId`. */
  method OpenIngestion(ingestions: I.IngestionStore, g: Gate, u: Update, materialId: int, now: int)
    returns (ingestionId: int)
    requires g.ToUpload? && ingestions.Valid()
    modifies ingestions
    ensures ingestions.Valid()
    ensures ingestionId == old(ingestions.nextId)
    ensures ingestions.rows == old(ingestions.rows) + [NewIngestion(ingestionId, g, u, materialId, now)]
  {
    ingestionId := ingestions.InsertIngestion(u.message.messageId, g.adminId, I.Pending, I.Add, u.message.fileUniqueId, now);
    ghost var inserted := ingestions.rows;
    ingestions.AttachMaterial(ingestionId, materialId, I.Pending);
    AttachNewRow(inserted, ingestionId, materialId, I.Pending);
  }

  /** `get_or_create_year(str(year)) if year else None` and the same for the
      lecturer: the ids the upload is filed under. */
  method ResolveNames(names: M.NameStore, info: HP.ParsedHashtags) returns (yearId: Option<int>, lecturerId: Option<int>)
    requires names.Valid()
    modifies names
    ensures names.Valid()
    ensures names.years == YearsAfter(old(names.years), old(names.nextYearId), info)
    ensures names.lecturers == LecturersAfter(old(names.lecturers), old(names.nextLecturerId), info)
    ensures yearId == YearIdFor(names.years, info) && lecturerId == LecturerIdFor(names.lecturers, info)
  {
    yearId := ResolveYear(names, info);
    lecturerId := ResolveLecturer(names, info);
  }

  /** `get_or_create_year(str(year)) if year else None`. */
  method ResolveYear(names: M.NameStore, info: HP.ParsedHashtags) returns (yearId: Option<int>)
    requires names.Valid()
    modifies names
    ensures names.Valid()
    ensures names.years == YearsAfter(old(names.years), old(names.nextYearId), info)
    ensures names.lecturers == old(names.lecturers) && names.nextLecturerId == old(names.nextLecturerId)
    ensures yearId == YearIdFor(names.years, info)
  {
    yearId := None;
    if YearName(info).Some? {
      var id := names.EnsureYearId(YearName(info).value);
      yearId := Some(id);
    }
  }

  /** `get_or_create_lecturer(lecturer) if lecturer else None`. */
  method ResolveLecturer(names: M.NameStore, info: HP.ParsedHashtags) returns (lecturerId: Option<int>)
    requires names.Valid()
    modifies names
    ensures names.Valid()
    ensures names.lecturers == LecturersAfter(old(names.lecturers), old(names.nextLecturerId), info)
    ensures names.years == old(names.years)
    ensures lecturerId == LecturerIdFor(names.lecturers, info)
  {
    lecturerId := None;
    if LecturerName(info).Some? {
      var id := names.EnsureLecturerId(LecturerName(info).value, DefaultLecturerRole);
      lecturerId := Some(id);
    }
  }

  /** `insert_material` for the upload and, for an attachment whose lecture
      the lookup does not find, for that lecture. */
  method StoreMaterials(materials: M.MaterialStore, g: Gate, u: Update, k: Lookup) returns (materialId: int)
    requires g.ToUpload? && materials.Valid()
    modifies materials
    ensures materials.Valid()
    ensures materialId == old(materials.nextId)
    ensures materials.rows == old(materials.rows) + NewMaterials(old(materials.rows), old(materials.nextId), g, u, k)
  {
    materialId := materials.InsertMaterial(UploadMaterial(g, u, k));
    if g.category in AttachmentCategories {
      var lecture := FindDuplicate(materials.rows, LectureLookup(k));
      if lecture.None? {
        var lectureId := materials.InsertMaterial(LectureMaterial(g, k));
      }
    }
  }

  /** After the new materials are stored, the upload's lookup finds its
      own material when it found none before, and an attachment's lecture
      lookup finds a lecture. */
  lemma NewMaterialsFound(rows: seq<M.MaterialRow>, nextId: int, g: Gate, u: Update, k: Lookup)
    requires g.ToUpload?
    ensures var after := rows + NewMaterials(rows, nextId, g, u, k);
      (FindDuplicate(rows, k).None? ==> FindDuplicate(after, k) == Some(nextId))
      && (g.category in AttachmentCategories ==> FindDuplicate(after, LectureLookup(k)).Some?)
      && exists x :: x in after && x.id == nextId
  {
    StoredMaterialsMatch(g, u, k);
    var own := M.MaterialRow(nextId, UploadMaterial(g, u, k));
    var after := rows + NewMaterials(rows, nextId, g, u, k);
    FirstAppend(rows, own, MatchesRow(k));
    if g.category in AttachmentCategories && FindDuplicate(rows + [own], LectureLookup(k)).None? {
      var lecture := M.MaterialRow(nextId + 1, LectureMaterial(g, k));
      assert after == rows + [own] + [lecture];
      FirstAppend(rows + [own], lecture, MatchesRow(k));
      assert lecture in after;
    } else {
      assert after == rows + [own];
    }
    assert own in after;
  }

  /** Attaching the row just appended rewrites that row only. */
  lemma AttachNewRow(rows: seq<I.IngestionRow>, id: int, materialId: int, status: string)
    requires |rows| > 0 && rows[|rows| - 1].id == id
    requires forall k :: 0 <= k < |rows| - 1 ==> rows[k].id != id
    ensures Map(rows, (x: I.IngestionRow) => if x.id == id then x.(materialId := Some(materialId), status := status) else x)
      == rows[..|rows| - 1] + [rows[|rows| - 1].(materialId := Some(materialId), status := status)]
  {
  }

  // ----- the duplicate prompt ---------------------------------------------------

  /** What the duplicate prompt's buttons lead to. */
  datatype DuplicateReply =
    | MalformedData
    | Expired
    | NotSender
    | Cancelled(keepData: string, deleteData: string)
    | ReplaceQueued(ingestionId: int)

  /** `handle_duplicate_decision`, pressed by `fromUser` with the button's
      `data`: the prompt is looked up in the presser's own data; a prompt
      that is not there has expired; only its sender or the owner may act
      on it; cancel forgets it and offers to keep or delete the original
      message; replace records a pending `replace` ingestion attached to the
      old material and forgets the prompt. */
  method HandleDuplicateDecision(data: UserData, ingestions: I.IngestionStore, cfg: A.Config,
                                 fromUser: int, buttonData: string, now: int) returns (r: DuplicateReply)
    requires ingestions.Valid()
    modifies data, ingestions
    ensures ingestions.Valid()
    ensures Callbacks.ParseDuplicate(buttonData).None? ==> r == MalformedData && unchanged(data, ingestions)
    ensures Callbacks.ParseDuplicate(buttonData).Some? ==>
      var (action, msgId) := Callbacks.ParseDuplicate(buttonData).value;
      var pending := old(data.Pending(fromUser));
      (msgId !in pending ==> r == Expired && unchanged(data, ingestions))
      && (msgId in pending && fromUser != pending[msgId].tgUserId && !A.IsOwner(cfg, Some(fromUser)) ==>
            r == NotSender && unchanged(data, ingestions))
      && (msgId in pending && (fromUser == pending[msgId].tgUserId || A.IsOwner(cfg, Some(fromUser))) ==>
            data.replaceCtx == old(data.replaceCtx)[fromUser := pending - {msgId}]
            && (action == Cancel ==>
                  r == Cancelled(Callbacks.ChoiceData("keep", msgId, fromUser), Callbacks.ChoiceData("del", msgId, fromUser))
                  && unchanged(ingestions))
            && (action != Cancel ==>
                  r == ReplaceQueued(old(ingestions.nextId))
                  && ingestions.rows == old(ingestions.rows) + [I.IngestionRow(old(ingestions.nextId), msgId, pending[msgId].adminId,
                       I.Pending, Replace, pending[msgId].fileUniqueId, Some(pending[msgId].oldMaterialId), now)]))
    ensures OwnEntries(old(data.replaceCtx)) ==> OwnEntries(data.replaceCtx) && r != NotSender
  {
    var parsed := Callbacks.ParseDuplicate(buttonData);
    if parsed.None? {
      return MalformedData;
    }
    var (action, msgId) := parsed.value;
    var pending := data.Pending(fromUser);
    if msgId !in pending {
      return Expired;
    }
    var c := pending[msgId];
    if fromUser != c.tgUserId && !A.IsOwner(cfg, Some(fromUser)) {
      return NotSender;
    }
    if OwnEntries(data.replaceCtx) {
      ForgetKeepsOwnEntries(data.replaceCtx, fromUser, msgId);
    }
    if action == Cancel {
      data.Forget(fromUser, msgId);
      return Cancelled(Callbacks.ChoiceData("keep", msgId, fromUser), Callbacks.ChoiceData("del", msgId, fromUser));
    }
    var ingestionId := ingestions.InsertIngestion(msgId, c.adminId, I.Pending, Replace, c.fileUniqueId, now);
    ghost var inserted := ingestions.rows;
    ingestions.AttachMaterial(ingestionId, c.oldMaterialId, I.Pending);
    AttachNewRow(inserted, ingestionId, c.oldMaterialId, I.Pending);
    data.Forget(fromUser, msgId);
    r := ReplaceQueued(ingestionId);
  }

  /** What the keep/delete buttons lead to. */
  datatype ChoiceReply = MalformedChoice | NotOwnChoice | Cleanup(deleteOriginal: Option<int>)

  /** `handle_duplicate_cancel_choice`: only the user named in the button
      or the owner may choose; "del" deletes the original upload, and the
      prompt itself is deleted either way. */
  function CancelChoice(cfg: A.Config, buttonData: string, fromUser: int): (r: ChoiceReply)
    ensures r.MalformedChoice? <==> Callbacks.ParseChoice(buttonData).None?
    ensures r.Cleanup? <==>
      Callbacks.ParseChoice(buttonData).Some?
      && (fromUser == Callbacks.ParseChoice(buttonData).value.2 || A.IsOwner(cfg, Some(fromUser)))
    ensures r.Cleanup? ==>
      var (action, msgId, _) := Callbacks.ParseChoice(buttonData).value;
      r.deleteOriginal == (if action == "del" then Some(msgId) else None)
  {
    match Callbacks.ParseChoice(buttonData)
    case None => MalformedChoice
    case Some((action, msgId, userId)) =>
      if fromUser != userId && !A.IsOwner(cfg, Some(fromUser)) then NotOwnChoice
      else Cleanup(if action == "del" then Some(msgId) else None)
  }

  /** The user who cancelled can use the buttons the cancel offered: "keep"
      leaves the original and "del" deletes it. */
  lemma CancelOffersWorkingChoice(cfg: A.Config, msgId: int, user: int)
    ensures CancelChoice(cfg, Callbacks.ChoiceData("keep", msgId, user), user) == Cleanup(None)
    ensures CancelChoice(cfg, Callbacks.ChoiceData("del", msgId, user), user) == Cleanup(Some(msgId))
  {
    Callbacks.ChoiceRoundTrip("keep", msgId, user);
    Callbacks.ChoiceRoundTrip("del", msgId, user);
  }
}
