/** Export of the taxonomy tables to a JSON-shaped value and import of such
    a value back: the import compares each incoming row with the stored one,
    reports what it would add, update or flag as a conflict, and then, unless
    asked for a dry run, applies the collected operations in order. */
module ImportExport {
  import opened Wrappers
  import opened Seqs
  import Text
  import T = Taxonomy
  import H = HashtagRepo

  // ----- the tables the import touches

  /** A snapshot of the taxonomy and hashtag tables. */
  datatype Tables = Tables(
    sections: seq<T.SectionRow>, cards: seq<T.CardRow>, itemTypes: seq<T.ItemTypeRow>,
    sectionItemTypes: seq<T.SectionItemTypeRow>, subjectSections: seq<T.SubjectSectionRow>,
    nextSectionId: int, nextCardId: int, nextItemTypeId: int, nextLinkId: int,
    aliases: seq<H.AliasRow>, mappings: seq<H.MappingRow>, nextAliasId: int, nextMappingId: int)

  function SectionId(s: T.SectionRow): int { s.id }
  function CardId(c: T.CardRow): int { c.id }
  function ItemTypeId(i: T.ItemTypeRow): int { i.id }
  function LinkId(l: T.SectionItemTypeRow): int { l.id }

  /** The keys and unique indexes of the tables. */
  ghost predicate TablesValid(t: Tables) {
    KeysDistinct(t.sections, SectionId) && (forall s :: s in t.sections ==> s.id < t.nextSectionId)
    && KeysDistinct(t.cards, CardId) && (forall c :: c in t.cards ==> c.id < t.nextCardId)
    && KeysDistinct(t.itemTypes, ItemTypeId) && (forall i :: i in t.itemTypes ==> i.id < t.nextItemTypeId)
    && KeysDistinct(t.sectionItemTypes, LinkId) && (forall l :: l in t.sectionItemTypes ==> l.id < t.nextLinkId)
    && KeysDistinct(t.sectionItemTypes, T.LinkKey)
    && KeysDistinct(t.subjectSections, T.EnableKey)
    && H.AliasesValid(t.aliases, t.nextAliasId) && H.MappingsValid(t.mappings, t.nextMappingId)
  }

  function Snapshot(tax: T.TaxonomyStore, tags: H.HashtagStore): Tables
    reads tax, tags
  {
    Tables(tax.sections, tax.cards, tax.itemTypes, tax.sectionItemTypes, tax.subjectSections,
           tax.nextSectionId, tax.nextCardId, tax.nextItemTypeId, tax.nextLinkId,
           tags.aliases, tags.mappings, tags.nextAliasId, tags.nextMappingId)
  }

  // ----- the JSON shape

  /** An incoming row as the import reads it: a key read with `.get(k,
      default)` may be missing, shown as `None`. */
  datatype SectionIn = SectionIn(id: int, labelAr: string, labelEn: string, isEnabled: Option<int>, sortOrder: Option<int>)
  datatype CardIn = CardIn(id: int, sectionId: Option<int>, labelAr: string, labelEn: string, showWhenEmpty: Option<int>,
                           isEnabled: Option<int>, sortOrder: Option<int>)
  datatype ItemTypeIn = ItemTypeIn(id: int, labelAr: string, labelEn: string, requiresLecture: Option<int>,
                                   allowsYear: Option<int>, allowsLecturer: Option<int>, isEnabled: Option<int>,
                                   sortOrder: Option<int>)
  datatype AliasIn = AliasIn(alias: string, normalized: Option<string>, lang: Option<string>)
  datatype MappingIn = MappingIn(alias: string, targetKind: string, targetId: int, isContentTag: Option<bool>,
                                 overrides: Option<string>)
  datatype EnableIn = EnableIn(subjectId: int, sectionId: int, isEnabled: Option<int>, sortOrder: Option<int>)

  /** The dict `export_taxonomy` returns and `import_taxonomy` reads; a
      missing top-level key reads as an empty list. */
  datatype Data = Data(sections: seq<SectionIn>, cards: seq<CardIn>, itemTypes: seq<ItemTypeIn>,
                       aliases: seq<AliasIn>, mappings: seq<MappingIn>, enables: seq<EnableIn>)

  /** An export: the tables, and the `presets` placeholder when asked for. */
  datatype Exported = Exported(data: Data, presets: bool)

  const TableNames: seq<string> :=
    ["sections", "cards", "item_types", "aliases", "mappings", "subject_section_enable"]

  /** The keys of an export, in the order they are written. */
  function Keys(e: Exported): seq<string> {
    TableNames + (if e.presets then ["presets"] else [])
  }

  // ----- export

  function SectionOut(s: T.SectionRow): SectionIn {
    SectionIn(s.id, s.labelAr, s.labelEn, Some(s.isEnabled), Some(s.sortOrder))
  }

  function CardOut(c: T.CardRow): CardIn {
    CardIn(c.id, c.sectionId, c.labelAr, c.labelEn, Some(c.showWhenEmpty), Some(c.isEnabled), Some(c.sortOrder))
  }

  function ItemTypeOut(i: T.ItemTypeRow): ItemTypeIn {
    ItemTypeIn(i.id, i.labelAr, i.labelEn, Some(i.requiresLecture), Some(i.allowsYear), Some(i.allowsLecturer),
               Some(i.isEnabled), Some(i.sortOrder))
  }

  function AliasOut(a: H.AliasRow): AliasIn {
    AliasIn(a.alias, a.normalized, a.lang)
  }

  function EnableOut(e: T.SubjectSectionRow): EnableIn {
    EnableIn(e.subjectId, e.sectionId, Some(e.isEnabled), Some(e.sortOrder))
  }

  function MappingId(m: H.MappingRow): int { m.id }
  function AliasIdOf(a: H.AliasRow): int { a.id }
  function EnableSubject(e: T.SubjectSectionRow): int { e.subjectId }
  function EnableSection(e: T.SubjectSectionRow): int { e.sectionId }

  /** The join `hashtag_mappings JOIN hashtag_aliases ON a.id = m.alias_id`
      keeps a mapping whose alias row exists. */
  function Joined(aliases: seq<H.AliasRow>): H.MappingRow -> bool {
    (m: H.MappingRow) => m.aliasId.Some? && H.AliasById(aliases, m.aliasId.value).Some?
  }

  function MappingOut(aliases: seq<H.AliasRow>): H.MappingRow -> MappingIn {
    (m: H.MappingRow) =>
      var alias := if Joined(aliases)(m) then H.AliasById(aliases, m.aliasId.value).value.alias else "";
      MappingIn(alias, m.targetKind, m.targetId, Some(m.isContentTag), m.overrides)
  }

  function SectionInId(s: SectionIn): int { s.id }
  function CardInId(c: CardIn): int { c.id }
  function ItemTypeInId(i: ItemTypeIn): int { i.id }
  function EnableInSubject(e: EnableIn): int { e.subjectId }

  /** `export_taxonomy(include_presets)`: the sections, cards, item types
      and aliases in id order, the mappings whose alias exists in id order
      with the alias text in place of its id, and the enablement rows
      ordered by subject. */
  function ExportTaxonomy(t: Tables, includePresets: bool): (e: Exported)
    ensures Keys(e) == TableNames + (if includePresets then ["presets"] else [])
  {
    Exported(Data(Map(SortBy(t.sections, SectionId), SectionOut), Map(SortBy(t.cards, CardId), CardOut),
                  Map(SortBy(t.itemTypes, ItemTypeId), ItemTypeOut), Map(SortBy(t.aliases, AliasIdOf), AliasOut),
                  Map(Filter(SortBy(t.mappings, MappingId), Joined(t.aliases)), MappingOut(t.aliases)),
                  Map(SortBy(SortBy(t.subjectSections, EnableSection), EnableSubject), EnableOut)),
             includePresets)
  }

  /** Sorting by a key and projecting keeps exactly the projections of the
      rows. */
  lemma ProjectionMembers<X, Y>(s: seq<X>, key: X -> int, f: X -> Y)
    ensures forall y :: y in Map(SortBy(s, key), f) <==> exists x :: x in s && f(x) == y
  {
    var sorted := SortBy(s, key);
    SortByMembers(s, key);
    MapMembers(sorted, f);
    forall y ensures y in Map(sorted, f) <==> exists x :: x in s && f(x) == y {
      if y in Map(sorted, f) {
        var x :| x in sorted && f(x) == y;
        assert x in s;
      }
      if exists x :: x in s && f(x) == y {
        var x :| x in s && f(x) == y;
        assert x in sorted;
      }
    }
  }

  /** A projection that loses nothing keeps exactly the rows, ordered by
      the projected key. */
  lemma InjectiveProjection<X, Y>(s: seq<X>, key: X -> int, f: X -> Y, key2: Y -> int, back: Y -> X)
    requires forall x :: key2(f(x)) == key(x)
    requires forall x :: back(f(x)) == x
    ensures SortedBy(Map(SortBy(s, key), f), key2)
    ensures forall x :: x in s <==> f(x) in Map(SortBy(s, key), f)
  {
    var sorted := SortBy(s, key);
    SortByMembers(s, key);
    MapSorted(sorted, key, f, key2);
    forall x ensures x in s <==> f(x) in Map(sorted, f) {
      if f(x) in Map(sorted, f) {
        var i :| 0 <= i < |sorted| && Map(sorted, f)[i] == f(x);
        assert back(f(sorted[i])) == back(f(x));
        assert sorted[i] in sorted;
      }
      if x in s {
        assert x in sorted;
        var i :| 0 <= i < |sorted| && sorted[i] == x;
        assert Map(sorted, f)[i] == f(x);
      }
    }
  }

  /** Every section is written, and nothing else, in id order. */
  lemma ExportSections(t: Tables, includePresets: bool)
    ensures var d := ExportTaxonomy(t, includePresets).data;
      (forall s :: s in t.sections <==> SectionOut(s) in d.sections) && SortedBy(d.sections, SectionInId)
  {
    InjectiveProjection(t.sections, SectionId, SectionOut, SectionInId, SectionRowOf);
  }

  /** Every card is written, and nothing else, in id order. */
  lemma ExportCards(t: Tables, includePresets: bool)
    ensures var d := ExportTaxonomy(t, includePresets).data;
      (forall c :: c in t.cards <==> CardOut(c) in d.cards) && SortedBy(d.cards, CardInId)
  {
    InjectiveProjection(t.cards, CardId, CardOut, CardInId, CardRowOf);
  }

  /** Every item type is written, and nothing else, in id order. */
  lemma ExportItemTypes(t: Tables, includePresets: bool)
    ensures var d := ExportTaxonomy(t, includePresets).data;
      (forall i :: i in t.itemTypes <==> ItemTypeOut(i) in d.itemTypes) && SortedBy(d.itemTypes, ItemTypeInId)
  {
    InjectiveProjection(t.itemTypes, ItemTypeId, ItemTypeOut, ItemTypeInId, ItemTypeRowOf);
  }

  /** Every alias is written, and nothing else. */
  lemma ExportAliases(t: Tables, includePresets: bool)
    ensures forall y :: y in ExportTaxonomy(t, includePresets).data.aliases <==> exists a :: a in t.aliases && AliasOut(a) == y
  {
    ProjectionMembers(t.aliases, AliasIdOf, AliasOut);
  }

  /** Every enablement row is written, and nothing else, ordered by
      subject. */
  lemma ExportEnables(t: Tables, includePresets: bool)
    ensures var d := ExportTaxonomy(t, includePresets).data;
      (forall e :: e in t.subjectSections <==> EnableOut(e) in d.enables) && SortedBy(d.enables, EnableInSubject)
  {
    var bySection := SortBy(t.subjectSections, EnableSection);
    SortByMembers(t.subjectSections, EnableSection);
    InjectiveProjection(bySection, EnableSubject, EnableOut, EnableInSubject, EnableRowOf);
  }

  /** The mappings exported are those whose alias exists, under the alias's
      text. */
  lemma ExportMappings(t: Tables, includePresets: bool)
    ensures forall y :: y in ExportTaxonomy(t, includePresets).data.mappings <==>
      exists m :: m in t.mappings && Joined(t.aliases)(m) && MappingOut(t.aliases)(m) == y
  {
    var sorted := SortBy(t.mappings, MappingId);
    SortByMembers(t.mappings, MappingId);
    var kept := Filter(sorted, Joined(t.aliases));
    var d := Map(kept, MappingOut(t.aliases));
    assert ExportTaxonomy(t, includePresets).data.mappings == d;
    MapMembers(kept, MappingOut(t.aliases));
    forall y ensures y in d <==> exists m :: m in t.mappings && Joined(t.aliases)(m) && MappingOut(t.aliases)(m) == y {
      if y in d {
        var m :| m in kept && MappingOut(t.aliases)(m) == y;
        assert m in sorted;
      }
      if exists m :: m in t.mappings && Joined(t.aliases)(m) && MappingOut(t.aliases)(m) == y {
        var m :| m in t.mappings && Joined(t.aliases)(m) && MappingOut(t.aliases)(m) == y;
        assert m in sorted;
        assert m in kept;
      }
    }
  }

  // ----- import: the report and the operations

  /** A list per table, in the order of `TableNames`. */
  datatype TableLists = TableLists(sections: seq<Scalar>, cards: seq<Scalar>, itemTypes: seq<Scalar>,
                                   aliases: seq<Scalar>, mappings: seq<Scalar>, enables: seq<Scalar>)
  {
    predicate IsEmpty() {
      sections == [] && cards == [] && itemTypes == [] && aliases == [] && mappings == [] && enables == []
    }
  }

  /** The report: every table under `add`, `update` and `conflicts`. */
  datatype Report = Report(add: TableLists, update: TableLists, conflicts: TableLists)

  /** The deferred statements the import collects. A mapping insert keeps
      the alias id looked up while planning. */
  datatype Op =
    | InsertSection(section: T.SectionRow) | UpdateSection(section: T.SectionRow)
    | InsertCard(card: T.CardRow) | UpdateCard(card: T.CardRow)
    | InsertItemType(itemType: T.ItemTypeRow) | UpdateItemType(itemType: T.ItemTypeRow)
    | InsertAlias(alias: AliasIn) | UpdateAlias(alias: AliasIn)
    | InsertMapping(plannedAliasId: Option<int>, mapping: MappingIn) | UpdateMapping(aliasId: Option<int>, mapping: MappingIn)
    | InsertEnable(enable: T.SubjectSectionRow) | UpdateEnable(enable: T.SubjectSectionRow)

  /** How an incoming row compares with the stored one. */
  datatype Verdict = Add | Same | Update | Conflict

  function Classify<P(==)>(existing: Option<P>, incoming: P, strict: bool): Verdict {
    if existing.None? then Add
    else if existing.value == incoming then Same
    else if strict then Conflict
    else Update
  }

  /** The report lists and the operations of one table. */
  datatype TablePlan = TablePlan(add: seq<Scalar>, update: seq<Scalar>, conflicts: seq<Scalar>, ops: seq<Op>)

  function VerdictIs<R, P(==)>(existing: R -> Option<P>, incoming: R -> P, strict: bool, v: Verdict): R -> bool {
    (r: R) => Classify(existing(r), incoming(r), strict) == v
  }

  function Changes<R, P(==)>(existing: R -> Option<P>, incoming: R -> P, strict: bool): R -> bool {
    (r: R) => Classify(existing(r), incoming(r), strict) in {Add, Update}
  }

  function OpFor<R, P(==)>(existing: R -> Option<P>, incoming: R -> P, strict: bool, insert: R -> Op, update: R -> Op): R -> Op {
    (r: R) => if existing(r).None? then insert(r) else update(r)
  }

  /** The plan of one table: the report entries and the operations, in the
      order of the incoming rows. */
  function PlanTable<R, P(==)>(rows: seq<R>, existing: R -> Option<P>, incoming: R -> P, ident: R -> Scalar,
                               insert: R -> Op, update: R -> Op, strict: bool): TablePlan
  {
    TablePlan(Map(Filter(rows, VerdictIs(existing, incoming, strict, Add)), ident),
              Map(Filter(rows, VerdictIs(existing, incoming, strict, Update)), ident),
              Map(Filter(rows, VerdictIs(existing, incoming, strict, Conflict)), ident),
              Map(Filter(rows, Changes(existing, incoming, strict)), OpFor(existing, incoming, strict, insert, update)))
  }

  /** A filter that no row passes selects nothing. */
  lemma NoneSelected<R>(rows: seq<R>, p: R -> bool)
    requires forall r :: r in rows ==> !p(r)
    ensures Filter(rows, p) == []
  {
    FilterNone(rows, p);
  }

  /** An absent row is reported as added, and a differing one as updated,
      or as a conflict under `strict`. */
  lemma PlanTableReports<R, P>(rows: seq<R>, existing: R -> Option<P>, incoming: R -> P, ident: R -> Scalar,
                                   insert: R -> Op, update: R -> Op, strict: bool)
    ensures var p := PlanTable(rows, existing, incoming, ident, insert, update, strict);
      && (forall r :: r in rows && existing(r).None? ==> ident(r) in p.add)
      && (forall r :: r in rows && existing(r).Some? && existing(r).value != incoming(r) ==>
            ident(r) in (if strict then p.conflicts else p.update))
  {
    MapMembers(Filter(rows, VerdictIs(existing, incoming, strict, Add)), ident);
    MapMembers(Filter(rows, VerdictIs(existing, incoming, strict, Update)), ident);
    MapMembers(Filter(rows, VerdictIs(existing, incoming, strict, Conflict)), ident);
  }

  /** Nothing is updated under `strict` and nothing conflicts without it;
      rows that all equal the stored ones give an empty plan. */
  lemma PlanTableQuiet<R, P>(rows: seq<R>, existing: R -> Option<P>, incoming: R -> P, ident: R -> Scalar,
                                 insert: R -> Op, update: R -> Op, strict: bool)
    ensures strict ==> PlanTable(rows, existing, incoming, ident, insert, update, strict).update == []
    ensures !strict ==> PlanTable(rows, existing, incoming, ident, insert, update, strict).conflicts == []
    ensures (forall r :: r in rows ==> existing(r) == Some(incoming(r))) ==>
      PlanTable(rows, existing, incoming, ident, insert, update, strict) == TablePlan([], [], [], [])
  {
    if strict {
      NoneSelected(rows, VerdictIs(existing, incoming, strict, Update));
    } else {
      NoneSelected(rows, VerdictIs(existing, incoming, strict, Conflict));
    }
    if forall r :: r in rows ==> existing(r) == Some(incoming(r)) {
      NoneSelected(rows, VerdictIs(existing, incoming, strict, Add));
      NoneSelected(rows, VerdictIs(existing, incoming, strict, Update));
      NoneSelected(rows, VerdictIs(existing, incoming, strict, Conflict));
      NoneSelected(rows, Changes(existing, incoming, strict));
    }
  }

  /** The report lists and operations after the first `i` incoming rows. */
  ghost predicate Planned<R, P>(rows: seq<R>, i: nat, add: seq<Scalar>, upd: seq<Scalar>, con: seq<Scalar>, ops: seq<Op>,
                                    existing: R -> Option<P>, incoming: R -> P, ident: R -> Scalar,
                                    insert: R -> Op, update: R -> Op, strict: bool)
    requires i <= |rows|
  {
    && add == Map(Filter(rows[..i], VerdictIs(existing, incoming, strict, Add)), ident)
    && upd == Map(Filter(rows[..i], VerdictIs(existing, incoming, strict, Update)), ident)
    && con == Map(Filter(rows[..i], VerdictIs(existing, incoming, strict, Conflict)), ident)
    && ops == Map(Filter(rows[..i], Changes(existing, incoming, strict)), OpFor(existing, incoming, strict, insert, update))
  }

  /** One more incoming row: its verdict decides which list it joins. */
  lemma PlanStep<R, P>(rows: seq<R>, i: nat, add: seq<Scalar>, upd: seq<Scalar>, con: seq<Scalar>, ops: seq<Op>,
                           existing: R -> Option<P>, incoming: R -> P, ident: R -> Scalar,
                           insert: R -> Op, update: R -> Op, strict: bool)
    requires i < |rows| && Planned(rows, i, add, upd, con, ops, existing, incoming, ident, insert, update, strict)
    ensures var r := rows[i];
      var v := Classify(existing(r), incoming(r), strict);
      Planned(rows, i + 1,
              add + (if v == Add then [ident(r)] else []),
              upd + (if v == Update then [ident(r)] else []),
              con + (if v == Conflict then [ident(r)] else []),
              ops + (if v == Add then [insert(r)] else if v == Update then [update(r)] else []),
              existing, incoming, ident, insert, update, strict)
  {
    SelectStep(rows, i, VerdictIs(existing, incoming, strict, Add), ident);
    SelectStep(rows, i, VerdictIs(existing, incoming, strict, Update), ident);
    SelectStep(rows, i, VerdictIs(existing, incoming, strict, Conflict), ident);
    SelectStep(rows, i, Changes(existing, incoming, strict), OpFor(existing, incoming, strict, insert, update));
  }

  /** The loop over the incoming rows of one table, appending to the
      report lists and the operations. */
  method DiffTable<R, P(==)>(rows: seq<R>, existing: R -> Option<P>, incoming: R -> P, ident: R -> Scalar,
                             insert: R -> Op, update: R -> Op, strict: bool) returns (p: TablePlan)
    ensures p == PlanTable(rows, existing, incoming, ident, insert, update, strict)
  {
    var add, upd, con, ops := [], [], [], [];
    var i := 0;
    while i < |rows|
      invariant 0 <= i <= |rows|
      invariant Planned(rows, i, add, upd, con, ops, existing, incoming, ident, insert, update, strict)
    {
      var r := rows[i];
      PlanStep(rows, i, add, upd, con, ops, existing, incoming, ident, insert, update, strict);
      var row := existing(r);
      if row.None? {
        add := add + [ident(r)];
        ops := ops + [insert(r)];
      } else if row.value != incoming(r) {
        if strict {
          con := con + [ident(r)];
        } else {
          upd := upd + [ident(r)];
          ops := ops + [update(r)];
        }
      }
      i := i + 1;
    }
    assert rows[..|rows|] == rows;
    p := TablePlan(add, upd, con, ops);
  }

  // ----- the six tables

  function SectionRowOf(s: SectionIn): T.SectionRow {
    T.SectionRow(s.id, s.labelAr, s.labelEn, s.isEnabled.GetOr(1), s.sortOrder.GetOr(0))
  }

  function SectionExisting(t: Tables): SectionIn -> Option<(string, string, int, int)> {
    (s: SectionIn) =>
      var row := First(t.sections, (x: T.SectionRow) => x.id == s.id);
      if row.None? then None else Some((row.value.labelAr, row.value.labelEn, row.value.isEnabled, row.value.sortOrder))
  }

  function SectionIncoming(s: SectionIn): (string, string, int, int) {
    (s.labelAr, s.labelEn, s.isEnabled.GetOr(1), s.sortOrder.GetOr(0))
  }

  function CardRowOf(c: CardIn): T.CardRow {
    T.CardRow(c.id, c.sectionId, c.labelAr, c.labelEn, c.showWhenEmpty.GetOr(0), c.isEnabled.GetOr(1), c.sortOrder.GetOr(0))
  }

  function CardExisting(t: Tables): CardIn -> Option<(string, string, Option<int>, int, int, int)> {
    (c: CardIn) =>
      var row := First(t.cards, (x: T.CardRow) => x.id == c.id);
      if row.None? then None
      else Some((row.value.labelAr, row.value.labelEn, row.value.sectionId, row.value.showWhenEmpty,
                 row.value.isEnabled, row.value.sortOrder))
  }

  function CardIncoming(c: CardIn): (string, string, Option<int>, int, int, int) {
    (c.labelAr, c.labelEn, c.sectionId, c.showWhenEmpty.GetOr(0), c.isEnabled.GetOr(1), c.sortOrder.GetOr(0))
  }

  function ItemTypeRowOf(i: ItemTypeIn): T.ItemTypeRow {
    T.ItemTypeRow(i.id, i.labelAr, i.labelEn, i.requiresLecture.GetOr(0), i.allowsYear.GetOr(1),
                  i.allowsLecturer.GetOr(1), i.isEnabled.GetOr(1), i.sortOrder.GetOr(0))
  }

  function ItemTypeExisting(t: Tables): ItemTypeIn -> Option<T.ItemTypeRow> {
    (i: ItemTypeIn) => First(t.itemTypes, (x: T.ItemTypeRow) => x.id == i.id)
  }

  function AliasExisting(t: Tables): AliasIn -> Option<(Option<string>, Option<string>)> {
    (a: AliasIn) =>
      var row := H.GetAlias(t.aliases, a.alias);
      if row.None? then None else Some((row.value.normalized, row.value.lang))
  }

  function AliasIncoming(a: AliasIn): (Option<string>, Option<string>) {
    (a.normalized, a.lang)
  }

  /** `SELECT id FROM hashtag_aliases WHERE alias=?`, or `None`. */
  function ResolveAlias(aliases: seq<H.AliasRow>, alias: string): Option<int> {
    var row := H.GetAlias(aliases, alias);
    if row.None? then None else Some(row.value.id)
  }

  /** `WHERE alias_id=? AND target_kind=? AND target_id=?`; a `NULL` alias id
      matches no row. */
  function MappingIs(aliasId: Option<int>, m: MappingIn): H.MappingRow -> bool {
    (x: H.MappingRow) => aliasId.Some? && x.aliasId == aliasId && x.targetKind == m.targetKind && x.targetId == m.targetId
  }

  /** The stored mapping an incoming one is compared with: identified by its
      alias, target kind and target id. */
  function MappingExisting(t: Tables): MappingIn -> Option<(bool, Option<string>)> {
    (m: MappingIn) =>
      var row := First(t.mappings, MappingIs(ResolveAlias(t.aliases, m.alias), m));
      if row.None? then None else Some((row.value.isContentTag, row.value.overrides))
  }

  /** An incoming mapping finds a stored row exactly when its alias exists
      and that alias has a mapping to the same target. */
  lemma MappingIdentity(t: Tables, m: MappingIn)
    ensures MappingExisting(t)(m).Some? <==>
      exists a, x :: a in t.aliases && a.alias == m.alias && x in t.mappings && x.aliasId == Some(a.id)
                     && x.targetKind == m.targetKind && x.targetId == m.targetId
              && H.GetAlias(t.aliases, m.alias) == Some(a)
  {
    if MappingExisting(t)(m).Some? {
      var x := First(t.mappings, MappingIs(ResolveAlias(t.aliases, m.alias), m)).value;
      var a := H.GetAlias(t.aliases, m.alias).value;
      assert a in t.aliases && x in t.mappings && x.aliasId == Some(a.id);
    }
  }

  function MappingIncoming(m: MappingIn): (bool, Option<string>) {
    (m.isContentTag.GetOr(false), m.overrides)
  }

  function EnableRowOf(e: EnableIn): T.SubjectSectionRow {
    T.SubjectSectionRow(e.subjectId, e.sectionId, e.isEnabled.GetOr(1), e.sortOrder.GetOr(0))
  }

  function EnableExisting(t: Tables): EnableIn -> Option<(int, int)> {
    (e: EnableIn) =>
      var row := First(t.subjectSections, (x: T.SubjectSectionRow) => x.subjectId == e.subjectId && x.sectionId == e.sectionId);
      if row.None? then None else Some((row.value.isEnabled, row.value.sortOrder))
  }

  function EnableIncoming(e: EnableIn): (int, int) {
    (e.isEnabled.GetOr(1), e.sortOrder.GetOr(0))
  }

  /** The report entry of a mapping, `alias→kind:id`. */
  function MappingIdent(m: MappingIn): Scalar {
    TextVal(m.alias + "\U{2192}" + m.targetKind + ":" + Text.IntToString(m.targetId))
  }

  /** The report entry of an enablement row, `subject:section`. */
  function EnableIdent(e: EnableIn): Scalar {
    TextVal(Text.IntToString(e.subjectId) + ":" + Text.IntToString(e.sectionId))
  }

  function PlanSections(t: Tables, data: Data, strict: bool): TablePlan {
    PlanTable(data.sections, SectionExisting(t), SectionIncoming, (s: SectionIn) => IntVal(s.id),
              (s: SectionIn) => InsertSection(SectionRowOf(s)), (s: SectionIn) => UpdateSection(SectionRowOf(s)), strict)
  }

  function PlanCards(t: Tables, data: Data, strict: bool): TablePlan {
    PlanTable(data.cards, CardExisting(t), CardIncoming, (c: CardIn) => IntVal(c.id),
              (c: CardIn) => InsertCard(CardRowOf(c)), (c: CardIn) => UpdateCard(CardRowOf(c)), strict)
  }

  function PlanItemTypes(t: Tables, data: Data, strict: bool): TablePlan {
    PlanTable(data.itemTypes, ItemTypeExisting(t), ItemTypeRowOf, (i: ItemTypeIn) => IntVal(i.id),
              (i: ItemTypeIn) => InsertItemType(ItemTypeRowOf(i)), (i: ItemTypeIn) => UpdateItemType(ItemTypeRowOf(i)), strict)
  }

  function PlanAliases(t: Tables, data: Data, strict: bool): TablePlan {
    PlanTable(data.aliases, AliasExisting(t), AliasIncoming, (a: AliasIn) => TextVal(a.alias),
              (a: AliasIn) => InsertAlias(a), (a: AliasIn) => UpdateAlias(a), strict)
  }

  function PlanMappings(t: Tables, data: Data, strict: bool): TablePlan {
    PlanTable(data.mappings, MappingExisting(t), MappingIncoming, MappingIdent,
              (m: MappingIn) => InsertMapping(ResolveAlias(t.aliases, m.alias), m),
              (m: MappingIn) => UpdateMapping(ResolveAlias(t.aliases, m.alias), m), strict)
  }

  function PlanEnables(t: Tables, data: Data, strict: bool): TablePlan {
    PlanTable(data.enables, EnableExisting(t), EnableIncoming, EnableIdent,
              (e: EnableIn) => InsertEnable(EnableRowOf(e)), (e: EnableIn) => UpdateEnable(EnableRowOf(e)), strict)
  }

  /** The report and the operations of the six tables, in table order. */
  function Plan(t: Tables, data: Data, strict: bool): (Report, seq<Op>) {
    var s, c, i := PlanSections(t, data, strict), PlanCards(t, data, strict), PlanItemTypes(t, data, strict);
    var a, m, e := PlanAliases(t, data, strict), PlanMappings(t, data, strict), PlanEnables(t, data, strict);
    (Report(TableLists(s.add, c.add, i.add, a.add, m.add, e.add),
             TableLists(s.update, c.update, i.update, a.update, m.update, e.update),
             TableLists(s.conflicts, c.conflicts, i.conflicts, a.conflicts, m.conflicts, e.conflicts)),
     s.ops + c.ops + i.ops + a.ops + m.ops + e.ops)
  }

  // ----- applying the operations

  /** The exception a statement raises: a primary key or unique index
      violated (`IntegrityError`), or the strict-mode `ValueError`. Either
      way nothing is committed. */
  datatype ImportError = IntegrityError | StrictConflicts

  function Max(a: int, b: int): int { if a >= b then a else b }

  /** `INSERT INTO hashtag_mappings (alias_id, …)` with that alias id; the
      unique index on `alias_id` lets any number of `NULL`s through. */
  function InsertMappingRow(t: Tables, aliasId: Option<int>, m: MappingIn): Result<Tables, ImportError> {
    if aliasId.Some? && exists x :: x in t.mappings && x.aliasId == aliasId then Err(IntegrityError)
    else Ok(t.(mappings := t.mappings + [H.MappingRow(t.nextMappingId, aliasId, m.targetKind, m.targetId,
                                                      m.isContentTag.GetOr(false), m.overrides)],
               nextMappingId := t.nextMappingId + 1))
  }

  /** One statement. A mapping insert looks its alias up when it runs, so an
      alias inserted earlier in the same import is found. */
  function ApplyOp(op: Op, t: Tables): Result<Tables, ImportError> {
    match op
    case InsertSection(s) =>
      if exists x :: x in t.sections && x.id == s.id then Err(IntegrityError)
      else Ok(t.(sections := t.sections + [s], nextSectionId := Max(t.nextSectionId, s.id + 1)))
    case UpdateSection(s) =>
      Ok(t.(sections := Map(t.sections, (x: T.SectionRow) => if x.id == s.id then s else x)))
    case InsertCard(c) =>
      if exists x :: x in t.cards && x.id == c.id then Err(IntegrityError)
      else Ok(t.(cards := t.cards + [c], nextCardId := Max(t.nextCardId, c.id + 1)))
    case UpdateCard(c) =>
      Ok(t.(cards := Map(t.cards, (x: T.CardRow) => if x.id == c.id then c else x)))
    case InsertItemType(i) =>
      if exists x :: x in t.itemTypes && x.id == i.id then Err(IntegrityError)
      else Ok(t.(itemTypes := t.itemTypes + [i], nextItemTypeId := Max(t.nextItemTypeId, i.id + 1)))
    case UpdateItemType(i) =>
      Ok(t.(itemTypes := Map(t.itemTypes, (x: T.ItemTypeRow) => if x.id == i.id then i else x)))
    case InsertAlias(a) =>
      if H.AliasClash(t.aliases, a.alias, a.normalized, None) then Err(IntegrityError)
      else Ok(t.(aliases := t.aliases + [H.AliasRow(t.nextAliasId, a.alias, a.normalized, a.lang)],
                 nextAliasId := t.nextAliasId + 1))
    case UpdateAlias(a) =>
      var row := H.GetAlias(t.aliases, a.alias);
      if row.None? then Ok(t)
      else if H.AliasClash(t.aliases, a.alias, a.normalized, Some(row.value.id)) then Err(IntegrityError)
      else Ok(t.(aliases := Map(t.aliases, (x: H.AliasRow) =>
                   if x.alias == a.alias then x.(normalized := a.normalized, lang := a.lang) else x)))
    case InsertMapping(_, m) =>
      InsertMappingRow(t, ResolveAlias(t.aliases, m.alias), m)
    case UpdateMapping(aliasId, m) =>
      Ok(t.(mappings := Map(t.mappings, (x: H.MappingRow) =>
              if MappingIs(aliasId, m)(x) then x.(isContentTag := m.isContentTag.GetOr(false), overrides := m.overrides) else x)))
    case InsertEnable(e) =>
      if exists x :: x in t.subjectSections && T.EnableKey(x) == T.EnableKey(e) then Err(IntegrityError)
      else Ok(t.(subjectSections := t.subjectSections + [e]))
    case UpdateEnable(e) =>
      Ok(t.(subjectSections := Map(t.subjectSections, (x: T.SubjectSectionRow) =>
              if T.EnableKey(x) == T.EnableKey(e) then e else x)))
  }

  /** The statements in order; the first failure abandons them all. */
  function ApplyOps(ops: seq<Op>, t: Tables): Result<Tables, ImportError> {
    if ops == [] then Ok(t)
    else
      match ApplyOp(ops[0], t)
      case Err(e) => Err(e)
      case Ok(t1) => ApplyOps(ops[1..], t1)
  }

  /** A rewrite that keeps a row's key keeps keys distinct and bounded. */
  lemma RewriteKeeps<X>(s: seq<X>, f: X -> X, key: X -> int, bound: int)
    requires forall x :: key(f(x)) == key(x)
    requires KeysDistinct(s, key) && forall x :: x in s ==> key(x) < bound
    ensures KeysDistinct(Map(s, f), key) && forall x :: x in Map(s, f) ==> key(x) < bound
  {
    KeysDistinctRewrite(s, Map(s, f), key);
    forall x | x in Map(s, f) ensures key(x) < bound {
      var k :| 0 <= k < |Map(s, f)| && Map(s, f)[k] == x;
      assert s[k] in s;
    }
  }

  /** An insert under a new key below the new bound keeps keys distinct and
      bounded. */
  lemma AppendKeeps<X>(s: seq<X>, x: X, key: X -> int, bound: int, bound2: int)
    requires KeysDistinct(s, key) && forall y :: y in s ==> key(y) < bound
    requires forall y :: y in s ==> key(y) != key(x)
    requires bound <= bound2 && key(x) < bound2
    ensures KeysDistinct(s + [x], key) && forall y :: y in s + [x] ==> key(y) < bound2
  {
    KeysDistinctAppend(s, key, x);
  }

  /** Every statement that succeeds keeps the keys and unique indexes. */
  lemma ApplyOpValid(op: Op, t: Tables)
    requires TablesValid(t) && ApplyOp(op, t).Ok?
    ensures TablesValid(ApplyOp(op, t).value)
  {
    if op.InsertAlias? || op.UpdateAlias? || op.InsertMapping? || op.UpdateMapping? {
      TagOpValid(op, t);
    } else {
      TaxonomyOpValid(op, t);
    }
  }

  /** The statements on the taxonomy tables. */
  lemma TaxonomyOpValid(op: Op, t: Tables)
    requires TablesValid(t) && ApplyOp(op, t).Ok?
    requires !(op.InsertAlias? || op.UpdateAlias? || op.InsertMapping? || op.UpdateMapping?)
    ensures TablesValid(ApplyOp(op, t).value)
  {
    match op
    case InsertSection(s) =>
      InsertSectionValid(t, s);
    case UpdateSection(s) =>
      UpdateSectionValid(t, s);
    case InsertCard(c) =>
      InsertCardValid(t, c);
    case UpdateCard(c) =>
      UpdateCardValid(t, c);
    case InsertItemType(i) =>
      InsertItemTypeValid(t, i);
    case UpdateItemType(i) =>
      UpdateItemTypeValid(t, i);
    case InsertEnable(e) =>
      KeysDistinctAppend(t.subjectSections, T.EnableKey, e);
    case UpdateEnable(e) =>
      var t2 := ApplyOp(op, t).value;
      KeysDistinctRewrite(t.subjectSections, t2.subjectSections, T.EnableKey);
  }

  /** The statements on the hashtag tables. */
  lemma TagOpValid(op: Op, t: Tables)
    requires TablesValid(t) && ApplyOp(op, t).Ok?
    requires op.InsertAlias? || op.UpdateAlias? || op.InsertMapping? || op.UpdateMapping?
    ensures TablesValid(ApplyOp(op, t).value)
  {
    match op
    case InsertAlias(a) =>
      InsertAliasValid(t.aliases, t.nextAliasId, a);
    case UpdateAlias(a) =>
      var row := H.GetAlias(t.aliases, a.alias);
      if row.Some? {
        UpdateAliasValid(t, a, row.value);
      }
    case InsertMapping(_, m) =>
    case UpdateMapping(aliasId, m) =>
  }

  lemma InsertSectionValid(t: Tables, s: T.SectionRow)
    requires TablesValid(t) && forall x :: x in t.sections ==> x.id != s.id
    ensures TablesValid(t.(sections := t.sections + [s], nextSectionId := Max(t.nextSectionId, s.id + 1)))
  {
    AppendKeeps(t.sections, s, SectionId, t.nextSectionId, Max(t.nextSectionId, s.id + 1));
  }

  lemma UpdateSectionValid(t: Tables, s: T.SectionRow)
    requires TablesValid(t)
    ensures TablesValid(t.(sections := Map(t.sections, (x: T.SectionRow) => if x.id == s.id then s else x)))
  {
    RewriteKeeps(t.sections, (x: T.SectionRow) => if x.id == s.id then s else x, SectionId, t.nextSectionId);
  }

  lemma InsertCardValid(t: Tables, c: T.CardRow)
    requires TablesValid(t) && forall x :: x in t.cards ==> x.id != c.id
    ensures TablesValid(t.(cards := t.cards + [c], nextCardId := Max(t.nextCardId, c.id + 1)))
  {
    AppendKeeps(t.cards, c, CardId, t.nextCardId, Max(t.nextCardId, c.id + 1));
  }

  lemma UpdateCardValid(t: Tables, c: T.CardRow)
    requires TablesValid(t)
    ensures TablesValid(t.(cards := Map(t.cards, (x: T.CardRow) => if x.id == c.id then c else x)))
  {
    RewriteKeeps(t.cards, (x: T.CardRow) => if x.id == c.id then c else x, CardId, t.nextCardId);
  }

  lemma InsertItemTypeValid(t: Tables, i: T.ItemTypeRow)
    requires TablesValid(t) && forall x :: x in t.itemTypes ==> x.id != i.id
    ensures TablesValid(t.(itemTypes := t.itemTypes + [i], nextItemTypeId := Max(t.nextItemTypeId, i.id + 1)))
  {
    AppendKeeps(t.itemTypes, i, ItemTypeId, t.nextItemTypeId, Max(t.nextItemTypeId, i.id + 1));
  }

  lemma UpdateItemTypeValid(t: Tables, i: T.ItemTypeRow)
    requires TablesValid(t)
    ensures TablesValid(t.(itemTypes := Map(t.itemTypes, (x: T.ItemTypeRow) => if x.id == i.id then i else x)))
  {
    RewriteKeeps(t.itemTypes, (x: T.ItemTypeRow) => if x.id == i.id then i else x, ItemTypeId, t.nextItemTypeId);
  }

  lemma InsertAliasValid(aliases: seq<H.AliasRow>, nextId: int, a: AliasIn)
    requires H.AliasesValid(aliases, nextId) && !H.AliasClash(aliases, a.alias, a.normalized, None)
    ensures H.AliasesValid(aliases + [H.AliasRow(nextId, a.alias, a.normalized, a.lang)], nextId + 1)
  {
    var s := aliases + [H.AliasRow(nextId, a.alias, a.normalized, a.lang)];
    forall i, j | 0 <= i < j < |s|
      ensures s[i].id != s[j].id && s[i].alias != s[j].alias && !H.SameNormalized(s[i].normalized, s[j].normalized)
    {
      if j == |aliases| {
        assert aliases[i] in aliases;
      }
    }
  }

  lemma UpdateAliasValid(t: Tables, a: AliasIn, row: H.AliasRow)
    requires TablesValid(t) && H.GetAlias(t.aliases, a.alias) == Some(row)
    requires !H.AliasClash(t.aliases, a.alias, a.normalized, Some(row.id))
    ensures H.AliasesValid(Map(t.aliases, (x: H.AliasRow) =>
              if x.alias == a.alias then x.(normalized := a.normalized, lang := a.lang) else x), t.nextAliasId)
  {
    var s := Map(t.aliases, (x: H.AliasRow) => if x.alias == a.alias then x.(normalized := a.normalized, lang := a.lang) else x);
    forall i, j | 0 <= i < j < |s|
      ensures s[i].id != s[j].id && s[i].alias != s[j].alias && !H.SameNormalized(s[i].normalized, s[j].normalized)
    {
      assert t.aliases[i] in t.aliases && t.aliases[j] in t.aliases;
      if t.aliases[i].alias == a.alias {
        H.AliasTextKey(t.aliases, t.nextAliasId, t.aliases[i], row);
      } else if t.aliases[j].alias == a.alias {
        H.AliasTextKey(t.aliases, t.nextAliasId, t.aliases[j], row);
      }
    }
  }

  lemma {:induction false} ApplyOpsValid(ops: seq<Op>, t: Tables)
    requires TablesValid(t) && ApplyOps(ops, t).Ok?
    ensures TablesValid(ApplyOps(ops, t).value)
  {
    if ops != [] {
      ApplyOpValid(ops[0], t);
      ApplyOpsValid(ops[1..], ApplyOp(ops[0], t).value);
    }
  }

  // ----- the whole import

  /** What an import returns and the tables it leaves. */
  datatype Outcome = Outcome(result: Result<Report, ImportError>, tables: Tables)

  /** `import_taxonomy(data, dry_run, strict)`: the report; with `strict`
      and a conflict, the report under `dry_run` and `ValueError` otherwise,
      before anything is applied; a dry run applies nothing; otherwise the
      operations run in order and are committed together, or not at all
      when one fails. */
  function Import(t: Tables, data: Data, dryRun: bool, strict: bool): (o: Outcome)
    ensures dryRun ==> o.tables == t && o.result == Ok(Plan(t, data, strict).0)
    ensures strict && !Plan(t, data, strict).0.conflicts.IsEmpty() ==> o.tables == t
    ensures strict && !Plan(t, data, strict).0.conflicts.IsEmpty() && !dryRun ==> o.result == Err(StrictConflicts)
    ensures o.result.Err? ==> o.tables == t
    ensures o.result.Ok? ==> o.result.value == Plan(t, data, strict).0
  {
    var (report, ops) := Plan(t, data, strict);
    if strict && !report.conflicts.IsEmpty() then
      if dryRun then Outcome(Ok(report), t) else Outcome(Err(StrictConflicts), t)
    else if dryRun then Outcome(Ok(report), t)
    else
      match ApplyOps(ops, t)
      case Err(e) => Outcome(Err(e), t)
      case Ok(t2) => Outcome(Ok(report), t2)
  }

  /** The six loops of `import_taxonomy`: the report and the operations. */
  method PlanImport(t: Tables, data: Data, strict: bool) returns (report: Report, ops: seq<Op>)
    ensures (report, ops) == Plan(t, data, strict)
  {
    var s := DiffTable(data.sections, SectionExisting(t), SectionIncoming, (s: SectionIn) => IntVal(s.id),
                       (s: SectionIn) => InsertSection(SectionRowOf(s)), (s: SectionIn) => UpdateSection(SectionRowOf(s)), strict);
    var c := DiffTable(data.cards, CardExisting(t), CardIncoming, (c: CardIn) => IntVal(c.id),
                       (c: CardIn) => InsertCard(CardRowOf(c)), (c: CardIn) => UpdateCard(CardRowOf(c)), strict);
    var i := DiffTable(data.itemTypes, ItemTypeExisting(t), ItemTypeRowOf, (i: ItemTypeIn) => IntVal(i.id),
                       (i: ItemTypeIn) => InsertItemType(ItemTypeRowOf(i)), (i: ItemTypeIn) => UpdateItemType(ItemTypeRowOf(i)), strict);
    var a := DiffTable(data.aliases, AliasExisting(t), AliasIncoming, (a: AliasIn) => TextVal(a.alias),
                       (a: AliasIn) => InsertAlias(a), (a: AliasIn) => UpdateAlias(a), strict);
    var m := DiffTable(data.mappings, MappingExisting(t), MappingIncoming, MappingIdent,
                       (m: MappingIn) => InsertMapping(ResolveAlias(t.aliases, m.alias), m),
                       (m: MappingIn) => UpdateMapping(ResolveAlias(t.aliases, m.alias), m), strict);
    var e := DiffTable(data.enables, EnableExisting(t), EnableIncoming, EnableIdent,
                       (e: EnableIn) => InsertEnable(EnableRowOf(e)), (e: EnableIn) => UpdateEnable(EnableRowOf(e)), strict);
    report := Report(TableLists(s.add, c.add, i.add, a.add, m.add, e.add),
                     TableLists(s.update, c.update, i.update, a.update, m.update, e.update),
                     TableLists(s.conflicts, c.conflicts, i.conflicts, a.conflicts, m.conflicts, e.conflicts));
    ops := s.ops + c.ops + i.ops + a.ops + m.ops + e.ops;
  }

  /** The loop that executes the collected statements on a copy of the
      tables: the copy after all of them, or the first error. */
  method RunOps(ops: seq<Op>, t: Tables) returns (r: Result<Tables, ImportError>)
    requires TablesValid(t)
    ensures r == ApplyOps(ops, t)
    ensures r.Ok? ==> TablesValid(r.value)
  {
    var cur := t;
    var k := 0;
    while k < |ops|
      invariant 0 <= k <= |ops|
      invariant TablesValid(cur)
      invariant ApplyOps(ops, t) == ApplyOps(ops[k..], cur)
    {
      assert ops[k..][0] == ops[k] && ops[k..][1..] == ops[k + 1..];
      var next := ApplyOp(ops[k], cur);
      if next.Err? {
        return Err(next.error);
      }
      ApplyOpValid(ops[k], cur);
      cur := next.value;
      k := k + 1;
    }
    return Ok(cur);
  }

  /** `import_taxonomy` over the stores: the report and the operations,
      then the operations on a copy that is written back, as one commit,
      only when all of them succeed. */
  method ImportTaxonomy(tax: T.TaxonomyStore, tags: H.HashtagStore, data: Data, dryRun: bool, strict: bool)
    returns (r: Result<Report, ImportError>)
    requires tax.Valid() && tags.Valid()
    modifies tax, tags
    ensures tax.Valid() && tags.Valid()
    ensures r == Import(old(Snapshot(tax, tags)), data, dryRun, strict).result
    ensures Snapshot(tax, tags) == Import(old(Snapshot(tax, tags)), data, dryRun, strict).tables
  {
    var t := Snapshot(tax, tags);
    var o := RunImport(t, data, dryRun, strict);
    if o.result.Ok? && !dryRun {
      Commit(tax, tags, o.tables);
    }
    r := o.result;
  }

  /** `import_taxonomy` on a copy of the tables: the plan, the strict and
      dry-run exits, then the operations in order, the first failure
      abandoning them all. */
  method RunImport(t: Tables, data: Data, dryRun: bool, strict: bool) returns (o: Outcome)
    requires TablesValid(t)
    ensures o == Import(t, data, dryRun, strict)
    ensures TablesValid(o.tables)
  {
    var report, ops := PlanImport(t, data, strict);
    if strict && !report.conflicts.IsEmpty() {
      if dryRun {
        return Outcome(Ok(report), t);
      }
      return Outcome(Err(StrictConflicts), t);
    }
    if dryRun {
      return Outcome(Ok(report), t);
    }
    var applied := RunOps(ops, t);
    if applied.Err? {
      return Outcome(Err(applied.error), t);
    }
    return Outcome(Ok(report), applied.value);
  }

  /** The commit: the stores take the tables of the copy. */
  method Commit(tax: T.TaxonomyStore, tags: H.HashtagStore, cur: Tables)
    requires TablesValid(cur)
    modifies tax, tags
    ensures tax.Valid() && tags.Valid()
    ensures Snapshot(tax, tags) == cur
  {
    tax.sections, tax.cards, tax.itemTypes := cur.sections, cur.cards, cur.itemTypes;
    tax.sectionItemTypes, tax.subjectSections := cur.sectionItemTypes, cur.subjectSections;
    tax.nextSectionId, tax.nextCardId, tax.nextItemTypeId, tax.nextLinkId := cur.nextSectionId, cur.nextCardId, cur.nextItemTypeId, cur.nextLinkId;
    tags.aliases, tags.mappings := cur.aliases, cur.mappings;
    tags.nextAliasId, tags.nextMappingId := cur.nextAliasId, cur.nextMappingId;
  }

  // ----- re-importing an export

  lemma ReimportSections(t: Tables, presets: bool)
    requires TablesValid(t)
    ensures forall r :: r in ExportTaxonomy(t, presets).data.sections ==> SectionExisting(t)(r) == Some(SectionIncoming(r))
  {
    ProjectionMembers(t.sections, SectionId, SectionOut);
    forall r | r in ExportTaxonomy(t, presets).data.sections ensures SectionExisting(t)(r) == Some(SectionIncoming(r)) {
      var s :| s in t.sections && SectionOut(s) == r;
      SectionFoundAgain(t, s);
    }
  }

  lemma SectionFoundAgain(t: Tables, s: T.SectionRow)
    requires KeysDistinct(t.sections, SectionId) && s in t.sections
    ensures var r := SectionOut(s); SectionExisting(t)(r) == Some(SectionIncoming(r))
  {
    var r := SectionOut(s);
    forall y | y in t.sections && y.id == s.id ensures y == s {
      KeyIdentifies(t.sections, SectionId, y, s);
    }
    FirstOnly(t.sections, (x: T.SectionRow) => x.id == r.id, s);
  }

  lemma ReimportCards(t: Tables, presets: bool)
    requires TablesValid(t)
    ensures forall r :: r in ExportTaxonomy(t, presets).data.cards ==> CardExisting(t)(r) == Some(CardIncoming(r))
  {
    ProjectionMembers(t.cards, CardId, CardOut);
    forall r | r in ExportTaxonomy(t, presets).data.cards ensures CardExisting(t)(r) == Some(CardIncoming(r)) {
      var c :| c in t.cards && CardOut(c) == r;
      CardFoundAgain(t, c);
    }
  }

  lemma CardFoundAgain(t: Tables, c: T.CardRow)
    requires KeysDistinct(t.cards, CardId) && c in t.cards
    ensures var r := CardOut(c); CardExisting(t)(r) == Some(CardIncoming(r))
  {
    var r := CardOut(c);
    forall y | y in t.cards && y.id == c.id ensures y == c {
      KeyIdentifies(t.cards, CardId, y, c);
    }
    FirstOnly(t.cards, (x: T.CardRow) => x.id == r.id, c);
  }

  lemma ReimportItemTypes(t: Tables, presets: bool)
    requires TablesValid(t)
    ensures forall r :: r in ExportTaxonomy(t, presets).data.itemTypes ==> ItemTypeExisting(t)(r) == Some(ItemTypeRowOf(r))
  {
    ProjectionMembers(t.itemTypes, ItemTypeId, ItemTypeOut);
    forall r | r in ExportTaxonomy(t, presets).data.itemTypes ensures ItemTypeExisting(t)(r) == Some(ItemTypeRowOf(r)) {
      var i :| i in t.itemTypes && ItemTypeOut(i) == r;
      ItemTypeFoundAgain(t, i);
    }
  }

  lemma ItemTypeFoundAgain(t: Tables, i: T.ItemTypeRow)
    requires KeysDistinct(t.itemTypes, ItemTypeId) && i in t.itemTypes
    ensures var r := ItemTypeOut(i); ItemTypeExisting(t)(r) == Some(ItemTypeRowOf(r))
  {
    var r := ItemTypeOut(i);
    forall y | y in t.itemTypes && y.id == i.id ensures y == i {
      KeyIdentifies(t.itemTypes, ItemTypeId, y, i);
    }
    FirstOnly(t.itemTypes, (x: T.ItemTypeRow) => x.id == r.id, i);
  }

  lemma ReimportAliases(t: Tables, presets: bool)
    requires TablesValid(t)
    ensures forall r :: r in ExportTaxonomy(t, presets).data.aliases ==> AliasExisting(t)(r) == Some(AliasIncoming(r))
  {
    ProjectionMembers(t.aliases, AliasIdOf, AliasOut);
    forall r | r in ExportTaxonomy(t, presets).data.aliases ensures AliasExisting(t)(r) == Some(AliasIncoming(r)) {
      var a :| a in t.aliases && AliasOut(a) == r;
      H.AliasTextKey(t.aliases, t.nextAliasId, H.GetAlias(t.aliases, r.alias).value, a);
    }
  }

  lemma ReimportMappings(t: Tables, presets: bool)
    requires TablesValid(t)
    ensures forall r :: r in ExportTaxonomy(t, presets).data.mappings ==> MappingExisting(t)(r) == Some(MappingIncoming(r))
  {
    ExportMappings(t, presets);
    forall r | r in ExportTaxonomy(t, presets).data.mappings ensures MappingExisting(t)(r) == Some(MappingIncoming(r)) {
      var m :| m in t.mappings && Joined(t.aliases)(m) && MappingOut(t.aliases)(m) == r;
      MappingFoundAgain(t, m);
    }
  }

  /** A stored mapping whose alias exists is found again under its
      exported key. */
  lemma MappingFoundAgain(t: Tables, m: H.MappingRow)
    requires TablesValid(t)
    requires m in t.mappings && Joined(t.aliases)(m)
    ensures var r := MappingOut(t.aliases)(m); MappingExisting(t)(r) == Some(MappingIncoming(r))
  {
    var r := MappingOut(t.aliases)(m);
    var a := H.AliasById(t.aliases, m.aliasId.value).value;
    H.AliasTextKey(t.aliases, t.nextAliasId, H.GetAlias(t.aliases, r.alias).value, a);
    assert ResolveAlias(t.aliases, r.alias) == m.aliasId;
    forall y | y in t.mappings && MappingIs(m.aliasId, r)(y) ensures y == m {
      var i :| 0 <= i < |t.mappings| && t.mappings[i] == y;
      var j :| 0 <= j < |t.mappings| && t.mappings[j] == m;
      assert !(i < j) && !(j < i);
    }
    FirstOnly(t.mappings, MappingIs(m.aliasId, r), m);
  }

  /** A stored enablement row is found again under its own key. */
  lemma EnableFoundAgain(t: Tables, e: T.SubjectSectionRow)
    requires KeysDistinct(t.subjectSections, T.EnableKey) && e in t.subjectSections
    ensures EnableExisting(t)(EnableOut(e)) == Some(EnableIncoming(EnableOut(e)))
  {
    var r := EnableOut(e);
    forall y | y in t.subjectSections && y.subjectId == e.subjectId && y.sectionId == e.sectionId ensures y == e {
      KeyIdentifies(t.subjectSections, T.EnableKey, y, e);
    }
    FirstOnly(t.subjectSections, (x: T.SubjectSectionRow) => x.subjectId == r.subjectId && x.sectionId == r.sectionId, e);
  }

  lemma ReimportEnables(t: Tables, presets: bool)
    requires TablesValid(t)
    ensures forall r :: r in ExportTaxonomy(t, presets).data.enables ==> EnableExisting(t)(r) == Some(EnableIncoming(r))
  {
    var bySection := SortBy(t.subjectSections, EnableSection);
    SortByMembers(t.subjectSections, EnableSection);
    ProjectionMembers(bySection, EnableSubject, EnableOut);
    forall r | r in ExportTaxonomy(t, presets).data.enables ensures EnableExisting(t)(r) == Some(EnableIncoming(r)) {
      var e :| e in bySection && EnableOut(e) == r;
      EnableFoundAgain(t, e);
    }
  }

  const NoLists := TableLists([], [], [], [], [], [])

  /** Incoming rows that all equal the stored ones plan nothing. */
  lemma QuietPlan(t: Tables, data: Data, strict: bool)
    requires forall r :: r in data.sections ==> SectionExisting(t)(r) == Some(SectionIncoming(r))
    requires forall r :: r in data.cards ==> CardExisting(t)(r) == Some(CardIncoming(r))
    requires forall r :: r in data.itemTypes ==> ItemTypeExisting(t)(r) == Some(ItemTypeRowOf(r))
    requires forall r :: r in data.aliases ==> AliasExisting(t)(r) == Some(AliasIncoming(r))
    requires forall r :: r in data.mappings ==> MappingExisting(t)(r) == Some(MappingIncoming(r))
    requires forall r :: r in data.enables ==> EnableExisting(t)(r) == Some(EnableIncoming(r))
    ensures Plan(t, data, strict) == (Report(NoLists, NoLists, NoLists), [])
  {
    QuietSections(t, data, strict);
    QuietCards(t, data, strict);
    QuietItemTypes(t, data, strict);
    QuietAliases(t, data, strict);
    QuietMappings(t, data, strict);
    QuietEnables(t, data, strict);
    QuietTables(PlanSections(t, data, strict), PlanCards(t, data, strict), PlanItemTypes(t, data, strict),
                PlanAliases(t, data, strict), PlanMappings(t, data, strict), PlanEnables(t, data, strict));
  }

  lemma QuietTables(s: TablePlan, c: TablePlan, i: TablePlan, a: TablePlan, m: TablePlan, e: TablePlan)
    requires s == TablePlan([], [], [], []) && c == TablePlan([], [], [], []) && i == TablePlan([], [], [], [])
    requires a == TablePlan([], [], [], []) && m == TablePlan([], [], [], []) && e == TablePlan([], [], [], [])
    ensures TableLists(s.add, c.add, i.add, a.add, m.add, e.add) == NoLists
    ensures TableLists(s.update, c.update, i.update, a.update, m.update, e.update) == NoLists
    ensures TableLists(s.conflicts, c.conflicts, i.conflicts, a.conflicts, m.conflicts, e.conflicts) == NoLists
    ensures s.ops + c.ops + i.ops + a.ops + m.ops + e.ops == []
  {
  }

  lemma QuietSections(t: Tables, data: Data, strict: bool)
    requires forall r :: r in data.sections ==> SectionExisting(t)(r) == Some(SectionIncoming(r))
    ensures PlanSections(t, data, strict) == TablePlan([], [], [], [])
  {
    PlanTableQuiet(data.sections, SectionExisting(t), SectionIncoming, (s: SectionIn) => IntVal(s.id),
                   (s: SectionIn) => InsertSection(SectionRowOf(s)), (s: SectionIn) => UpdateSection(SectionRowOf(s)), strict);
  }

  lemma QuietCards(t: Tables, data: Data, strict: bool)
    requires forall r :: r in data.cards ==> CardExisting(t)(r) == Some(CardIncoming(r))
    ensures PlanCards(t, data, strict) == TablePlan([], [], [], [])
  {
    PlanTableQuiet(data.cards, CardExisting(t), CardIncoming, (c: CardIn) => IntVal(c.id),
                   (c: CardIn) => InsertCard(CardRowOf(c)), (c: CardIn) => UpdateCard(CardRowOf(c)), strict);
  }

  lemma QuietItemTypes(t: Tables, data: Data, strict: bool)
    requires forall r :: r in data.itemTypes ==> ItemTypeExisting(t)(r) == Some(ItemTypeRowOf(r))
    ensures PlanItemTypes(t, data, strict) == TablePlan([], [], [], [])
  {
    PlanTableQuiet(data.itemTypes, ItemTypeExisting(t), ItemTypeRowOf, (i: ItemTypeIn) => IntVal(i.id),
                   (i: ItemTypeIn) => InsertItemType(ItemTypeRowOf(i)), (i: ItemTypeIn) => UpdateItemType(ItemTypeRowOf(i)), strict);
  }

  lemma QuietAliases(t: Tables, data: Data, strict: bool)
    requires forall r :: r in data.aliases ==> AliasExisting(t)(r) == Some(AliasIncoming(r))
    ensures PlanAliases(t, data, strict) == TablePlan([], [], [], [])
  {
    PlanTableQuiet(data.aliases, AliasExisting(t), AliasIncoming, (a: AliasIn) => TextVal(a.alias),
                   (a: AliasIn) => InsertAlias(a), (a: AliasIn) => UpdateAlias(a), strict);
  }

  lemma QuietMappings(t: Tables, data: Data, strict: bool)
    requires forall r :: r in data.mappings ==> MappingExisting(t)(r) == Some(MappingIncoming(r))
    ensures PlanMappings(t, data, strict) == TablePlan([], [], [], [])
  {
    PlanTableQuiet(data.mappings, MappingExisting(t), MappingIncoming, MappingIdent,
                   (m: MappingIn) => InsertMapping(ResolveAlias(t.aliases, m.alias), m),
                   (m: MappingIn) => UpdateMapping(ResolveAlias(t.aliases, m.alias), m), strict);
  }

  lemma QuietEnables(t: Tables, data: Data, strict: bool)
    requires forall r :: r in data.enables ==> EnableExisting(t)(r) == Some(EnableIncoming(r))
    ensures PlanEnables(t, data, strict) == TablePlan([], [], [], [])
  {
    PlanTableQuiet(data.enables, EnableExisting(t), EnableIncoming, EnableIdent,
                   (e: EnableIn) => InsertEnable(EnableRowOf(e)), (e: EnableIn) => UpdateEnable(EnableRowOf(e)), strict);
  }

  /** Importing what was just exported finds every row equal to the stored
      one: the report is empty under every mode and nothing changes. */
  lemma ReimportIsEmpty(t: Tables, presets: bool, dryRun: bool, strict: bool)
    requires TablesValid(t)
    ensures Import(t, ExportTaxonomy(t, presets).data, dryRun, strict) == Outcome(Ok(Report(NoLists, NoLists, NoLists)), t)
  {
    ReimportPlansNothing(t, presets, strict);
    QuietImport(t, ExportTaxonomy(t, presets).data, dryRun, strict);
  }

  /** An empty plan reports nothing and leaves the tables as they were. */
  lemma QuietImport(t: Tables, data: Data, dryRun: bool, strict: bool)
    requires Plan(t, data, strict) == (Report(NoLists, NoLists, NoLists), [])
    ensures Import(t, data, dryRun, strict) == Outcome(Ok(Report(NoLists, NoLists, NoLists)), t)
  {
    assert ApplyOps([], t) == Ok(t);
  }

  /** Every exported row is found again unchanged, so the plan is empty. */
  lemma ReimportPlansNothing(t: Tables, presets: bool, strict: bool)
    requires TablesValid(t)
    ensures Plan(t, ExportTaxonomy(t, presets).data, strict) == (Report(NoLists, NoLists, NoLists), [])
  {
    ReimportSections(t, presets);
    ReimportCards(t, presets);
    ReimportItemTypes(t, presets);
    ReimportAliases(t, presets);
    ReimportMappings(t, presets);
    ReimportEnables(t, presets);
    QuietPlan(t, ExportTaxonomy(t, presets).data, strict);
  }

  // ----- mapping inserts and the alias they refer to

  /** A mapping inserted for an alias that exists when the statement runs is
      found by `lookup_targets` for that alias afterwards. */
  lemma ImportedMappingResolves(t: Tables, planned: Option<int>, m: MappingIn)
    requires H.GetAlias(t.aliases, m.alias).Some?
    requires ApplyOp(InsertMapping(planned, m), t).Ok?
    ensures var t2 := ApplyOp(InsertMapping(planned, m), t).value;
      (m.targetKind, m.targetId) in H.LookupTargets(t2.aliases, t2.mappings, m.alias)
  {
    var t2 := ApplyOp(InsertMapping(planned, m), t).value;
    var a := H.GetAlias(t.aliases, m.alias).value;
    var x := t2.mappings[|t2.mappings| - 1];
    assert x in t2.mappings && H.JoinsAlias(t2.aliases, x, m.alias);
    var views := H.GetMappingsForAlias(t2.aliases, t2.mappings, m.alias);
    assert H.View(x, m.alias) in views;
    var k :| 0 <= k < |views| && views[k] == H.View(x, m.alias);
    assert H.LookupTargets(t2.aliases, t2.mappings, m.alias)[k] == (m.targetKind, m.targetId);
  }

  /** A statement as the import runs it: a mapping insert uses the alias id
      looked up while planning, before any statement ran. */
  function ApplyOpAsWritten(op: Op, t: Tables): Result<Tables, ImportError> {
    if op.InsertMapping? then InsertMappingRow(t, op.plannedAliasId, op.mapping) else ApplyOp(op, t)
  }

  function ApplyOpsAsWritten(ops: seq<Op>, t: Tables): Result<Tables, ImportError> {
    if ops == [] then Ok(t)
    else
      match ApplyOpAsWritten(ops[0], t)
      case Err(e) => Err(e)
      case Ok(t1) => ApplyOpsAsWritten(ops[1..], t1)
  }

  /** A mapping inserted with no planned alias id never joins an alias:
      `lookup_targets` cannot find it under any text. */
  lemma UnresolvedMappingIsLost(t: Tables, m: MappingIn, alias: string)
    requires ApplyOpAsWritten(InsertMapping(None, m), t).Ok?
    ensures var t2 := ApplyOpAsWritten(InsertMapping(None, m), t).value;
      H.LookupTargets(t2.aliases, t2.mappings, alias) == H.LookupTargets(t.aliases, t.mappings, alias)
  {
    var t2 := ApplyOpAsWritten(InsertMapping(None, m), t).value;
    var x := H.MappingRow(t.nextMappingId, None, m.targetKind, m.targetId, m.isContentTag.GetOr(false), m.overrides);
    GetMappingsAppendUnjoined(t.aliases, t.mappings, x, alias);
  }

  lemma {:induction false} GetMappingsAppendUnjoined(aliases: seq<H.AliasRow>, mappings: seq<H.MappingRow>, x: H.MappingRow, alias: string)
    requires x.aliasId.None?
    ensures H.GetMappingsForAlias(aliases, mappings + [x], alias) == H.GetMappingsForAlias(aliases, mappings, alias)
  {
    if mappings == [] {
      assert [x][1..] == [];
    } else {
      assert (mappings + [x])[1..] == mappings[1..] + [x];
      GetMappingsAppendUnjoined(aliases, mappings[1..], x, alias);
    }
  }

  const EmptyTables := Tables([], [], [], [], [], 1, 1, 1, 1, [], [], 1, 1)

  /** An export holding a new alias `hw` and a mapping of it to card 1. */
  const NewAliasData := Data([], [], [], [NewAlias], [NewMapping], [])

  const NewAlias := AliasIn("hw", Some("hw"), None)
  const NewMapping := MappingIn("hw", "card", 1, Some(false), None)

  /** A single incoming row with no stored counterpart plans one insert. */
  lemma PlanSingleInsert<R, P>(r: R, existing: R -> Option<P>, incoming: R -> P, ident: R -> Scalar,
                               insert: R -> Op, update: R -> Op, strict: bool)
    requires existing(r).None?
    ensures PlanTable([r], existing, incoming, ident, insert, update, strict).ops == [insert(r)]
  {
    assert [r][1..] == [];
  }

  /** The plan of that import: the alias insert, then the mapping insert
      with no alias id, since the alias did not exist while planning. */
  lemma NewAliasPlan()
    ensures Plan(EmptyTables, NewAliasData, false).1 == [InsertAlias(NewAlias), InsertMapping(None, NewMapping)]
  {
    var t, d := EmptyTables, NewAliasData;
    PlanSingleInsert(NewAlias, AliasExisting(t), AliasIncoming, (a: AliasIn) => TextVal(a.alias),
                   (a: AliasIn) => InsertAlias(a), (a: AliasIn) => UpdateAlias(a), false);
    assert ResolveAlias(t.aliases, NewMapping.alias) == None;
    PlanSingleInsert(NewMapping, MappingExisting(t), MappingIncoming, MappingIdent,
                   (m: MappingIn) => InsertMapping(ResolveAlias(t.aliases, m.alias), m),
                   (m: MappingIn) => UpdateMapping(ResolveAlias(t.aliases, m.alias), m), false);
    assert PlanSections(t, d, false).ops == [] && PlanCards(t, d, false).ops == [];
    assert PlanItemTypes(t, d, false).ops == [] && PlanEnables(t, d, false).ops == [];
  }

  /** The tables once the alias is inserted. */
  const AfterAlias := EmptyTables.(aliases := [H.AliasRow(1, "hw", Some("hw"), None)], nextAliasId := 2)

  lemma AliasInsertsCleanly()
    ensures ApplyOp(InsertAlias(NewAlias), EmptyTables) == Ok(AfterAlias)
    ensures ApplyOpAsWritten(InsertAlias(NewAlias), EmptyTables) == Ok(AfterAlias)
  {
    var t := EmptyTables;
    assert !H.AliasClash(t.aliases, NewAlias.alias, NewAlias.normalized, None);
    assert t.aliases + [H.AliasRow(t.nextAliasId, NewAlias.alias, NewAlias.normalized, NewAlias.lang)] == AfterAlias.aliases;
  }

  lemma TwoOps(a: Op, b: Op, t: Tables)
    ensures ApplyOps([a, b], t) == (match ApplyOp(a, t) case Err(e) => Err(e) case Ok(t1) => ApplyOps([b], t1))
    ensures ApplyOpsAsWritten([a, b], t) ==
      (match ApplyOpAsWritten(a, t) case Err(e) => Err(e) case Ok(t1) => ApplyOpsAsWritten([b], t1))
  {
    assert [a, b][1..] == [b];
  }

  /** Importing a new alias together with its mapping into empty tables: as
      written, the mapping is stored with a `NULL` alias id and
      `lookup_targets("hw")` finds nothing; resolving the alias when the
      insert runs stores it under the new alias, and the lookup finds card
      1. */
  lemma NewAliasMappingLost()
    ensures var ops := Plan(EmptyTables, NewAliasData, false).1;
      && ApplyOpsAsWritten(ops, EmptyTables).Ok?
      && ApplyOpsAsWritten(ops, EmptyTables).value.mappings == [H.MappingRow(1, None, "card", 1, false, None)]
      && H.LookupTargets(ApplyOpsAsWritten(ops, EmptyTables).value.aliases,
                         ApplyOpsAsWritten(ops, EmptyTables).value.mappings, "hw") == []
  {
    NewAliasPlan();
    TwoOps(InsertAlias(NewAlias), InsertMapping(None, NewMapping), EmptyTables);
    AliasInsertsCleanly();
    var lost := InsertMappingRow(AfterAlias, None, NewMapping).value;
    assert ApplyOpsAsWritten([InsertMapping(None, NewMapping)], AfterAlias) == Ok(lost);
    UnresolvedMappingIsLost(AfterAlias, NewMapping, "hw");
    assert H.GetMappingsForAlias(AfterAlias.aliases, AfterAlias.mappings, "hw") == [];
  }

  /** The same import with the alias resolved when the insert runs: the
      mapping is stored under the new alias and found. */
  lemma NewAliasMappingKept()
    ensures var ops := Plan(EmptyTables, NewAliasData, false).1;
      && ApplyOps(ops, EmptyTables).Ok?
      && (NewMapping.targetKind, NewMapping.targetId) in
           H.LookupTargets(ApplyOps(ops, EmptyTables).value.aliases, ApplyOps(ops, EmptyTables).value.mappings, "hw")
  {
    NewAliasPlan();
    TwoOps(InsertAlias(NewAlias), InsertMapping(None, NewMapping), EmptyTables);
    AliasInsertsCleanly();
    var kept := ApplyOp(InsertMapping(None, NewMapping), AfterAlias).value;
    assert ApplyOps([InsertMapping(None, NewMapping)], AfterAlias) == Ok(kept);
    ImportedMappingResolves(AfterAlias, None, NewMapping);
  }

  // ----- importing the same data twice

  /** A single incoming row equal to its stored counterpart plans nothing. */
  lemma PlanSingleSame<R, P>(r: R, existing: R -> Option<P>, incoming: R -> P, ident: R -> Scalar,
                             insert: R -> Op, update: R -> Op, strict: bool)
    requires existing(r) == Some(incoming(r))
    ensures PlanTable([r], existing, incoming, ident, insert, update, strict).ops == []
  {
    assert [r][1..] == [];
  }

  /** The tables after the import of `NewAliasData` into empty tables, with
      the mapping resolved when it is inserted, and as written. */
  const KeptTables := AfterAlias.(mappings := [H.MappingRow(1, Some(1), "card", 1, false, None)], nextMappingId := 2)
  const LostTables := AfterAlias.(mappings := [H.MappingRow(1, None, "card", 1, false, None)], nextMappingId := 2)

  lemma OneOp(a: Op, t: Tables)
    ensures ApplyOps([a], t) == ApplyOp(a, t)
    ensures ApplyOpsAsWritten([a], t) == ApplyOpAsWritten(a, t)
  {
    assert [a][1..] == [];
  }

  lemma KeptInsert()
    ensures ApplyOp(InsertMapping(None, NewMapping), AfterAlias) == Ok(KeptTables)
  {
    assert ResolveAlias(AfterAlias.aliases, NewMapping.alias) == Some(1);
    var x := H.MappingRow(1, Some(1), "card", 1, false, None);
    assert NewMapping.isContentTag.GetOr(false) == false;
    assert AfterAlias.mappings + [x] == [x];
  }

  lemma LostInsert()
    ensures ApplyOpAsWritten(InsertMapping(None, NewMapping), AfterAlias) == Ok(LostTables)
  {
    var x := H.MappingRow(1, None, "card", 1, false, None);
    assert NewMapping.isContentTag.GetOr(false) == false;
    assert AfterAlias.mappings + [x] == [x];
  }

  lemma FirstImportResults()
    ensures ApplyOps(Plan(EmptyTables, NewAliasData, false).1, EmptyTables) == Ok(KeptTables)
    ensures ApplyOpsAsWritten(Plan(EmptyTables, NewAliasData, false).1, EmptyTables) == Ok(LostTables)
  {
    NewAliasPlan();
    TwoOps(InsertAlias(NewAlias), InsertMapping(None, NewMapping), EmptyTables);
    AliasInsertsCleanly();
    OneOp(InsertMapping(None, NewMapping), AfterAlias);
    KeptInsert();
    LostInsert();
  }

  /** Importing the same data a second time, from the tables the first
      import left, plans nothing once mapping inserts resolve their alias:
      the import is idempotent on this data. */
  lemma NewAliasReimportQuiet()
    ensures ApplyOps(Plan(EmptyTables, NewAliasData, false).1, EmptyTables) == Ok(KeptTables)
    ensures Plan(KeptTables, NewAliasData, false) == (Report(NoLists, NoLists, NoLists), [])
  {
    FirstImportResults();
    KeptAliasSame();
    KeptMappingSame();
    QuietPlan(KeptTables, NewAliasData, false);
  }

  lemma KeptAliasSame()
    ensures AliasExisting(KeptTables)(NewAlias) == Some(AliasIncoming(NewAlias))
  {
    assert H.GetAlias(KeptTables.aliases, "hw") == Some(H.AliasRow(1, "hw", Some("hw"), None));
  }

  lemma KeptMappingSame()
    ensures MappingExisting(KeptTables)(NewMapping) == Some(MappingIncoming(NewMapping))
  {
    var t := KeptTables;
    assert ResolveAlias(t.aliases, NewMapping.alias) == Some(1);
    assert First(t.mappings, MappingIs(Some(1), NewMapping)) == Some(t.mappings[0]);
  }

  /** As written, the second import of the same data is not idempotent: the
      mapping stored with a `NULL` alias id is not recognised, so it is
      planned and inserted again, now with the alias id, next to the first
      copy. */
  lemma NewAliasReimportDuplicates()
    ensures ApplyOpsAsWritten(Plan(EmptyTables, NewAliasData, false).1, EmptyTables) == Ok(LostTables)
    ensures Plan(LostTables, NewAliasData, false).1 == [InsertMapping(Some(1), NewMapping)]
    ensures ApplyOpsAsWritten([InsertMapping(Some(1), NewMapping)], LostTables)
         == Ok(LostTables.(mappings := LostTables.mappings + [H.MappingRow(2, Some(1), "card", 1, false, None)], nextMappingId := 3))
  {
    FirstImportResults();
    LostReplan();
    LostReinsert();
  }

  lemma LostReinsert()
    ensures ApplyOpsAsWritten([InsertMapping(Some(1), NewMapping)], LostTables)
         == Ok(LostTables.(mappings := LostTables.mappings + [H.MappingRow(2, Some(1), "card", 1, false, None)], nextMappingId := 3))
  {
    OneOp(InsertMapping(Some(1), NewMapping), LostTables);
    assert LostTables.mappings[0].aliasId.None?;
    assert !exists x :: x in LostTables.mappings && x.aliasId == Some(1);
    assert NewMapping.isContentTag.GetOr(false) == false;
  }

  /** Planning `NewAliasData` again over the tables the import left as
      written: the alias is the same, the mapping is not recognised. */
  lemma LostReplan()
    ensures Plan(LostTables, NewAliasData, false).1 == [InsertMapping(Some(1), NewMapping)]
  {
    var t := LostTables;
    var d := NewAliasData;
    assert H.GetAlias(t.aliases, "hw") == Some(H.AliasRow(1, "hw", Some("hw"), None));
    PlanSingleSame(NewAlias, AliasExisting(t), AliasIncoming, (a: AliasIn) => TextVal(a.alias),
                   (a: AliasIn) => InsertAlias(a), (a: AliasIn) => UpdateAlias(a), false);
    LostMappingUnseen();
    PlanSingleInsert(NewMapping, MappingExisting(t), MappingIncoming, MappingIdent,
                   (m: MappingIn) => InsertMapping(ResolveAlias(t.aliases, m.alias), m),
                   (m: MappingIn) => UpdateMapping(ResolveAlias(t.aliases, m.alias), m), false);
    assert ResolveAlias(t.aliases, NewMapping.alias) == Some(1);
    assert PlanSections(t, d, false).ops == [] && PlanCards(t, d, false).ops == [];
    assert PlanItemTypes(t, d, false).ops == [] && PlanEnables(t, d, false).ops == [];
  }

  /** The stored mapping with a `NULL` alias id is not the incoming one. */
  lemma LostMappingUnseen()
    ensures MappingExisting(LostTables)(NewMapping).None?
  {
    var t := LostTables;
    assert ResolveAlias(t.aliases, NewMapping.alias) == Some(1);
    assert !MappingIs(Some(1), NewMapping)(t.mappings[0]);
    assert t.mappings[1..] == [];
  }
}
