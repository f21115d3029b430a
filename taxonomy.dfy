/** The taxonomy tables: sections (theory, lab, ...), cards (material
    categories shown under a section), item types (lecture, slides, ...), the
    section/item-type links and the per-subject enablement of sections. Reads
    filter on `is_enabled=1` unless disabled rows are asked for and order by
    `sort_order`. */
module Taxonomy {
  import opened Wrappers
  import opened Seqs

  /** The label column a query reads: `label_ar` or `label_en`. */
  datatype Lang = Ar | En

  datatype SectionRow = SectionRow(id: int, labelAr: string, labelEn: string, isEnabled: int, sortOrder: int)
  datatype CardRow = CardRow(id: int, sectionId: Option<int>, labelAr: string, labelEn: string,
                             showWhenEmpty: int, isEnabled: int, sortOrder: int)
  datatype ItemTypeRow = ItemTypeRow(id: int, labelAr: string, labelEn: string, requiresLecture: int,
                                     allowsYear: int, allowsLecturer: int, isEnabled: int, sortOrder: int)
  /** A row of `section_item_types`, unique on (section, item type). */
  datatype SectionItemTypeRow = SectionItemTypeRow(id: int, sectionId: int, itemTypeId: int, isEnabled: int, sortOrder: int)
  /** A row of `subject_section_enable`, keyed by (subject, section). */
  datatype SubjectSectionRow = SubjectSectionRow(subjectId: int, sectionId: int, isEnabled: int, sortOrder: int)

  /** The dicts the getters return; integer flags become booleans. */
  datatype SectionView = SectionView(id: int, caption: string, sortOrder: int, isEnabled: bool)
  datatype CardView = CardView(id: int, sectionId: Option<int>, caption: string, showWhenEmpty: bool, isEnabled: bool, sortOrder: int)
  datatype ItemTypeView = ItemTypeView(id: int, caption: string, requiresLecture: bool, allowsYear: bool,
                                       allowsLecturer: bool, isEnabled: bool, sortOrder: int)
  /** A row of the two joins: the target's id and label with the link's order
      and flag. */
  datatype LinkView = LinkView(id: int, caption: string, sortOrder: int, isEnabled: bool)

  /** The columns an `update_*` call names; `None` leaves a column alone. */
  datatype SectionPatch = SectionPatch(labelAr: Option<string>, labelEn: Option<string>, isEnabled: Option<int>, sortOrder: Option<int>) {
    predicate IsEmpty() { labelAr.None? && labelEn.None? && isEnabled.None? && sortOrder.None? }
  }
  datatype CardPatch = CardPatch(sectionId: Option<Option<int>>, labelAr: Option<string>, labelEn: Option<string>,
                                 showWhenEmpty: Option<int>, isEnabled: Option<int>, sortOrder: Option<int>) {
    predicate IsEmpty() {
      sectionId.None? && labelAr.None? && labelEn.None? && showWhenEmpty.None? && isEnabled.None? && sortOrder.None?
    }
  }
  datatype ItemTypePatch = ItemTypePatch(labelAr: Option<string>, labelEn: Option<string>, requiresLecture: Option<int>,
                                         allowsYear: Option<int>, allowsLecturer: Option<int>, isEnabled: Option<int>,
                                         sortOrder: Option<int>) {
    predicate IsEmpty() {
      labelAr.None? && labelEn.None? && requiresLecture.None? && allowsYear.None? && allowsLecturer.None?
      && isEnabled.None? && sortOrder.None?
    }
  }

  function Label(lang: Lang, ar: string, en: string): string {
    if lang == Ar then ar else en
  }

  /** `is_enabled=1`, the filter the reads apply. */
  predicate Enabled(flag: int) { flag == 1 }

  // ----- sections ----------------------------------------------------------

  function SectionViewOf(s: SectionRow, lang: Lang): SectionView {
    SectionView(s.id, Label(lang, s.labelAr, s.labelEn), s.sortOrder, s.isEnabled != 0)
  }

  predicate SectionVisible(s: SectionRow, includeDisabled: bool) {
    includeDisabled || Enabled(s.isEnabled)
  }

  /** `get_section`: the row with that id, unless it is disabled and disabled
      rows were not asked for. */
  function GetSection(sections: seq<SectionRow>, id: int, lang: Lang, includeDisabled: bool): (r: Option<SectionView>)
    ensures r.Some? ==> exists s :: s in sections && s.id == id && SectionVisible(s, includeDisabled) && r.value == SectionViewOf(s, lang)
    ensures r.None? ==> forall s :: s in sections && s.id == id ==> !SectionVisible(s, includeDisabled)
  {
    if sections == [] then None
    else if sections[0].id == id && SectionVisible(sections[0], includeDisabled) then Some(SectionViewOf(sections[0], lang))
    else GetSection(sections[1..], id, lang, includeDisabled)
  }

  /** `get_sections`: the visible rows ordered by `sort_order`. */
  function GetSections(sections: seq<SectionRow>, lang: Lang, includeDisabled: bool): (r: seq<SectionView>)
    ensures SortedBy(r, (v: SectionView) => v.sortOrder)
    ensures forall v :: v in r ==> includeDisabled || v.isEnabled
    ensures forall v :: v in r <==> exists s :: s in sections && SectionVisible(s, includeDisabled) && v == SectionViewOf(s, lang)
  {
    var p := (s: SectionRow) => SectionVisible(s, includeDisabled);
    var key := (s: SectionRow) => s.sortOrder;
    var f := (s: SectionRow) => SectionViewOf(s, lang);
    SelectMembers(sections, p, key, f);
    MapSorted(SortBy(Filter(sections, p), key), key, f, (v: SectionView) => v.sortOrder);
    Map(SortBy(Filter(sections, p), key), f)
  }

  function PatchSection(s: SectionRow, p: SectionPatch): SectionRow {
    SectionRow(s.id, p.labelAr.GetOr(s.labelAr), p.labelEn.GetOr(s.labelEn), p.isEnabled.GetOr(s.isEnabled), p.sortOrder.GetOr(s.sortOrder))
  }

  // ----- cards -------------------------------------------------------------

  function CardViewOf(c: CardRow, lang: Lang): CardView {
    CardView(c.id, c.sectionId, Label(lang, c.labelAr, c.labelEn), c.showWhenEmpty != 0, c.isEnabled != 0, c.sortOrder)
  }

  predicate CardVisible(c: CardRow, includeDisabled: bool) {
    includeDisabled || Enabled(c.isEnabled)
  }

  /** `get_card`. */
  function GetCard(cards: seq<CardRow>, id: int, lang: Lang, includeDisabled: bool): (r: Option<CardView>)
    ensures r.Some? ==> exists c :: c in cards && c.id == id && CardVisible(c, includeDisabled) && r.value == CardViewOf(c, lang)
    ensures r.None? ==> forall c :: c in cards && c.id == id ==> !CardVisible(c, includeDisabled)
  {
    if cards == [] then None
    else if cards[0].id == id && CardVisible(cards[0], includeDisabled) then Some(CardViewOf(cards[0], lang))
    else GetCard(cards[1..], id, lang, includeDisabled)
  }

  /** The `WHERE` of `get_cards`: the section when one is given, and the
      enabled flag unless disabled rows are asked for. A card whose section
      is `NULL` never satisfies `section_id=?`. */
  predicate CardSelected(c: CardRow, sectionId: Option<int>, includeDisabled: bool) {
    (sectionId.None? || c.sectionId == Some(sectionId.value)) && CardVisible(c, includeDisabled)
  }

  /** `get_cards`: the selected cards ordered by `sort_order`. */
  function GetCards(cards: seq<CardRow>, sectionId: Option<int>, lang: Lang, includeDisabled: bool): (r: seq<CardView>)
    ensures SortedBy(r, (v: CardView) => v.sortOrder)
    ensures forall v :: v in r ==> (sectionId.None? || v.sectionId == Some(sectionId.value)) && (includeDisabled || v.isEnabled)
    ensures forall v :: v in r <==> exists c :: c in cards && CardSelected(c, sectionId, includeDisabled) && v == CardViewOf(c, lang)
  {
    var p := (c: CardRow) => CardSelected(c, sectionId, includeDisabled);
    var key := (c: CardRow) => c.sortOrder;
    var f := (c: CardRow) => CardViewOf(c, lang);
    SelectMembers(cards, p, key, f);
    MapSorted(SortBy(Filter(cards, p), key), key, f, (v: CardView) => v.sortOrder);
    Map(SortBy(Filter(cards, p), key), f)
  }

  function PatchCard(c: CardRow, p: CardPatch): CardRow {
    CardRow(c.id, p.sectionId.GetOr(c.sectionId), p.labelAr.GetOr(c.labelAr), p.labelEn.GetOr(c.labelEn),
            p.showWhenEmpty.GetOr(c.showWhenEmpty), p.isEnabled.GetOr(c.isEnabled), p.sortOrder.GetOr(c.sortOrder))
  }

  // ----- item types --------------------------------------------------------

  function ItemTypeViewOf(t: ItemTypeRow, lang: Lang): ItemTypeView {
    ItemTypeView(t.id, Label(lang, t.labelAr, t.labelEn), t.requiresLecture != 0, t.allowsYear != 0,
                 t.allowsLecturer != 0, t.isEnabled != 0, t.sortOrder)
  }

  predicate ItemTypeVisible(t: ItemTypeRow, includeDisabled: bool) {
    includeDisabled || Enabled(t.isEnabled)
  }

  /** `get_item_type`. */
  function GetItemType(items: seq<ItemTypeRow>, id: int, lang: Lang, includeDisabled: bool): (r: Option<ItemTypeView>)
    ensures r.Some? ==> exists t :: t in items && t.id == id && ItemTypeVisible(t, includeDisabled) && r.value == ItemTypeViewOf(t, lang)
    ensures r.None? ==> forall t :: t in items && t.id == id ==> !ItemTypeVisible(t, includeDisabled)
  {
    if items == [] then None
    else if items[0].id == id && ItemTypeVisible(items[0], includeDisabled) then Some(ItemTypeViewOf(items[0], lang))
    else GetItemType(items[1..], id, lang, includeDisabled)
  }

  /** `get_item_types`. */
  function GetItemTypes(items: seq<ItemTypeRow>, lang: Lang, includeDisabled: bool): (r: seq<ItemTypeView>)
    ensures SortedBy(r, (v: ItemTypeView) => v.sortOrder)
    ensures forall v :: v in r ==> includeDisabled || v.isEnabled
    ensures forall v :: v in r <==> exists t :: t in items && ItemTypeVisible(t, includeDisabled) && v == ItemTypeViewOf(t, lang)
  {
    var p := (t: ItemTypeRow) => ItemTypeVisible(t, includeDisabled);
    var key := (t: ItemTypeRow) => t.sortOrder;
    var f := (t: ItemTypeRow) => ItemTypeViewOf(t, lang);
    SelectMembers(items, p, key, f);
    MapSorted(SortBy(Filter(items, p), key), key, f, (v: ItemTypeView) => v.sortOrder);
    Map(SortBy(Filter(items, p), key), f)
  }

  function PatchItemType(t: ItemTypeRow, p: ItemTypePatch): ItemTypeRow {
    ItemTypeRow(t.id, p.labelAr.GetOr(t.labelAr), p.labelEn.GetOr(t.labelEn), p.requiresLecture.GetOr(t.requiresLecture),
                p.allowsYear.GetOr(t.allowsYear), p.allowsLecturer.GetOr(t.allowsLecturer),
                p.isEnabled.GetOr(t.isEnabled), p.sortOrder.GetOr(t.sortOrder))
  }

  // ----- the two link tables and their joins -------------------------------

  function ItemTypeById(items: seq<ItemTypeRow>, id: int): (r: Option<ItemTypeRow>)
    ensures r.Some? ==> r.value in items && r.value.id == id
    ensures r.None? ==> forall t :: t in items ==> t.id != id
  {
    if items == [] then None else if items[0].id == id then Some(items[0]) else ItemTypeById(items[1..], id)
  }

  function SectionById(sections: seq<SectionRow>, id: int): (r: Option<SectionRow>)
    ensures r.Some? ==> r.value in sections && r.value.id == id
    ensures r.None? ==> forall s :: s in sections ==> s.id != id
  {
    if sections == [] then None else if sections[0].id == id then Some(sections[0]) else SectionById(sections[1..], id)
  }

  /** The join row of `get_item_types_for_section` for one link, if the link
      is selected. */
  function ItemTypeLink(items: seq<ItemTypeRow>, l: SectionItemTypeRow, sectionId: int, lang: Lang, includeDisabled: bool): Option<LinkView> {
    var t := ItemTypeById(items, l.itemTypeId);
    if l.sectionId == sectionId && t.Some? && (includeDisabled || (Enabled(l.isEnabled) && Enabled(t.value.isEnabled)))
    then Some(LinkView(t.value.id, Label(lang, t.value.labelAr, t.value.labelEn), l.sortOrder, l.isEnabled != 0))
    else None
  }

  function JoinItemTypes(items: seq<ItemTypeRow>, links: seq<SectionItemTypeRow>, sectionId: int, lang: Lang, includeDisabled: bool): (r: seq<LinkView>)
    ensures forall v :: v in r <==> exists l :: l in links && ItemTypeLink(items, l, sectionId, lang, includeDisabled) == Some(v)
  {
    if links == [] then []
    else
      var head := ItemTypeLink(items, links[0], sectionId, lang, includeDisabled);
      assert forall l :: l in links <==> l == links[0] || l in links[1..];
      (if head.Some? then [head.value] else []) + JoinItemTypes(items, links[1..], sectionId, lang, includeDisabled)
  }

  /** `get_item_types_for_section`: the section's linked item types, both the
      link and the item type enabled unless disabled rows are asked for,
      ordered by the link's `sort_order`. */
  function GetItemTypesForSection(items: seq<ItemTypeRow>, links: seq<SectionItemTypeRow>, sectionId: int, lang: Lang, includeDisabled: bool)
    : (r: seq<LinkView>)
    ensures SortedBy(r, (v: LinkView) => v.sortOrder)
    ensures forall v :: v in r <==> exists l :: l in links && ItemTypeLink(items, l, sectionId, lang, includeDisabled) == Some(v)
  {
    var joined := JoinItemTypes(items, links, sectionId, lang, includeDisabled);
    SortByMembers(joined, (v: LinkView) => v.sortOrder);
    SortBy(joined, (v: LinkView) => v.sortOrder)
  }

  /** The join row of `get_sections_for_subject` for one enablement row. */
  function SectionLink(sections: seq<SectionRow>, e: SubjectSectionRow, subjectId: int, lang: Lang, includeDisabled: bool): Option<LinkView> {
    var s := SectionById(sections, e.sectionId);
    if e.subjectId == subjectId && s.Some? && (includeDisabled || (Enabled(e.isEnabled) && Enabled(s.value.isEnabled)))
    then Some(LinkView(s.value.id, Label(lang, s.value.labelAr, s.value.labelEn), e.sortOrder, e.isEnabled != 0))
    else None
  }

  function JoinSections(sections: seq<SectionRow>, enables: seq<SubjectSectionRow>, subjectId: int, lang: Lang, includeDisabled: bool): (r: seq<LinkView>)
    ensures forall v :: v in r <==> exists e :: e in enables && SectionLink(sections, e, subjectId, lang, includeDisabled) == Some(v)
  {
    if enables == [] then []
    else
      var head := SectionLink(sections, enables[0], subjectId, lang, includeDisabled);
      assert forall e :: e in enables <==> e == enables[0] || e in enables[1..];
      (if head.Some? then [head.value] else []) + JoinSections(sections, enables[1..], subjectId, lang, includeDisabled)
  }

  /** `get_sections_for_subject`: the sections enabled for the subject (both
      the enablement row and the section enabled unless disabled rows are
      asked for), ordered by the enablement's `sort_order`. */
  function GetSectionsForSubject(sections: seq<SectionRow>, enables: seq<SubjectSectionRow>, subjectId: int, lang: Lang, includeDisabled: bool)
    : (r: seq<LinkView>)
    ensures SortedBy(r, (v: LinkView) => v.sortOrder)
    ensures forall v :: v in r <==> exists e :: e in enables && SectionLink(sections, e, subjectId, lang, includeDisabled) == Some(v)
  {
    var joined := JoinSections(sections, enables, subjectId, lang, includeDisabled);
    SortByMembers(joined, (v: LinkView) => v.sortOrder);
    SortBy(joined, (v: LinkView) => v.sortOrder)
  }

  /** `INSERT ... ON CONFLICT(subject_id, section_id) DO UPDATE`: the row with
      that key takes the new flag and order, or a row is appended. */
  function UpsertEnable(rows: seq<SubjectSectionRow>, subjectId: int, sectionId: int, isEnabled: int, sortOrder: int)
    : (r: seq<SubjectSectionRow>)
    ensures SubjectSectionRow(subjectId, sectionId, isEnabled, sortOrder) in r
    ensures forall e :: e in r && e.subjectId == subjectId && e.sectionId == sectionId ==> e.isEnabled == isEnabled && e.sortOrder == sortOrder
    ensures forall e :: e in rows && (e.subjectId != subjectId || e.sectionId != sectionId) ==> e in r
    ensures forall e :: e in r && (e.subjectId != subjectId || e.sectionId != sectionId) ==> e in rows
  {
    if exists e :: e in rows && e.subjectId == subjectId && e.sectionId == sectionId then
      var r := Map(rows, (e: SubjectSectionRow) =>
        if e.subjectId == subjectId && e.sectionId == sectionId then SubjectSectionRow(subjectId, sectionId, isEnabled, sortOrder) else e);
      MapMembers(rows, (e: SubjectSectionRow) =>
        if e.subjectId == subjectId && e.sectionId == sectionId then SubjectSectionRow(subjectId, sectionId, isEnabled, sortOrder) else e);
      r
    else rows + [SubjectSectionRow(subjectId, sectionId, isEnabled, sortOrder)]
  }

  /** The upsert keeps both keys of the link table distinct and its ids
      below the next id, which moves on when a link is appended. */
  lemma UpsertLinkKeys(rows: seq<SectionItemTypeRow>, nextId: int, sectionId: int, itemTypeId: int, isEnabled: int, sortOrder: int)
    requires KeysDistinct(rows, (l: SectionItemTypeRow) => l.id) && KeysDistinct(rows, LinkKey)
    requires forall l :: l in rows ==> l.id < nextId
    ensures var r := UpsertLink(rows, nextId, sectionId, itemTypeId, isEnabled, sortOrder);
      KeysDistinct(r, (l: SectionItemTypeRow) => l.id) && KeysDistinct(r, LinkKey)
      && forall l :: l in r ==> l.id < (if exists l :: l in rows && LinkKey(l) == (sectionId, itemTypeId) then nextId else nextId + 1)
  {
    var updated := UpsertLink(rows, nextId, sectionId, itemTypeId, isEnabled, sortOrder);
    if exists l :: l in rows && LinkKey(l) == (sectionId, itemTypeId) {
      KeysDistinctRewrite(rows, updated, (l: SectionItemTypeRow) => l.id);
      KeysDistinctRewrite(rows, updated, LinkKey);
      forall l | l in updated ensures l.id < nextId {
        var i :| 0 <= i < |updated| && updated[i] == l;
        assert l.id == rows[i].id;
      }
    } else {
      var row := SectionItemTypeRow(nextId, sectionId, itemTypeId, isEnabled, sortOrder);
      KeysDistinctAppend(rows, (l: SectionItemTypeRow) => l.id, row);
      KeysDistinctAppend(rows, LinkKey, row);
    }
  }

  /** `INSERT ... ON CONFLICT(section_id, item_type_id) DO UPDATE`: the link
      with that key keeps its id and takes the new flag and order, or a link
      with id `newId` is appended. */
  function UpsertLink(rows: seq<SectionItemTypeRow>, newId: int, sectionId: int, itemTypeId: int, isEnabled: int, sortOrder: int)
    : (r: seq<SectionItemTypeRow>)
    ensures (exists l :: l in rows && LinkKey(l) == (sectionId, itemTypeId)) ==>
      |r| == |rows| && forall i :: 0 <= i < |rows| ==> r[i].id == rows[i].id && LinkKey(r[i]) == LinkKey(rows[i])
    ensures !(exists l :: l in rows && LinkKey(l) == (sectionId, itemTypeId)) ==>
      r == rows + [SectionItemTypeRow(newId, sectionId, itemTypeId, isEnabled, sortOrder)]
    ensures exists l :: l in r && LinkKey(l) == (sectionId, itemTypeId)
    ensures forall l :: l in r && LinkKey(l) == (sectionId, itemTypeId) ==> l.isEnabled == isEnabled && l.sortOrder == sortOrder
    ensures forall l :: l in rows && LinkKey(l) != (sectionId, itemTypeId) ==> l in r
    ensures forall l :: l in r && LinkKey(l) != (sectionId, itemTypeId) ==> l in rows
  {
    if exists l :: l in rows && LinkKey(l) == (sectionId, itemTypeId) then
      var f := (l: SectionItemTypeRow) =>
        if LinkKey(l) == (sectionId, itemTypeId) then SectionItemTypeRow(l.id, sectionId, itemTypeId, isEnabled, sortOrder) else l;
      MapMembers(rows, f);
      var l :| l in rows && LinkKey(l) == (sectionId, itemTypeId);
      assert f(l) in Map(rows, f);
      Map(rows, f)
    else
      var r := rows + [SectionItemTypeRow(newId, sectionId, itemTypeId, isEnabled, sortOrder)];
      assert r[|rows|] in r;
      r
  }

  function EnableKey(e: SubjectSectionRow): (int, int) { (e.subjectId, e.sectionId) }
  function LinkKey(l: SectionItemTypeRow): (int, int) { (l.sectionId, l.itemTypeId) }

  class TaxonomyStore {
    var sections: seq<SectionRow>
    var cards: seq<CardRow>
    var itemTypes: seq<ItemTypeRow>
    var sectionItemTypes: seq<SectionItemTypeRow>
    var subjectSections: seq<SubjectSectionRow>
    var nextSectionId: int
    var nextCardId: int
    var nextItemTypeId: int
    var nextLinkId: int

    /** Primary keys and unique indexes hold, and every id is below the next
        one its table hands out (each table has its own `AUTOINCREMENT`
        sequence). */
    ghost predicate Valid() reads this {
      KeysDistinct(sections, (s: SectionRow) => s.id) && (forall s :: s in sections ==> s.id < nextSectionId)
      && KeysDistinct(cards, (c: CardRow) => c.id) && (forall c :: c in cards ==> c.id < nextCardId)
      && KeysDistinct(itemTypes, (t: ItemTypeRow) => t.id) && (forall t :: t in itemTypes ==> t.id < nextItemTypeId)
      && KeysDistinct(sectionItemTypes, (l: SectionItemTypeRow) => l.id) && (forall l :: l in sectionItemTypes ==> l.id < nextLinkId)
      && KeysDistinct(sectionItemTypes, LinkKey)
      && KeysDistinct(subjectSections, EnableKey)
    }

    /** The next id of each table: sections, cards, item types, links. */
    ghost function Counters(): (int, int, int, int) reads this {
      (nextSectionId, nextCardId, nextItemTypeId, nextLinkId)
    }

    constructor ()
      ensures Valid() && sections == [] && cards == [] && itemTypes == [] && sectionItemTypes == [] && subjectSections == []
    {
      sections, cards, itemTypes, sectionItemTypes, subjectSections := [], [], [], [], [];
      nextSectionId, nextCardId, nextItemTypeId, nextLinkId := 1, 1, 1, 1;
    }

    /** `create_section`: a fresh row, returned as `get_section` with disabled
        rows included sees it. */
    method CreateSection(labelAr: string, labelEn: string, isEnabled: bool, sortOrder: int, lang: Lang) returns (r: Option<SectionView>)
      requires Valid()
      modifies this
      ensures Valid()
      ensures forall s :: s in old(sections) ==> s.id != old(nextSectionId)
      ensures sections == old(sections) + [SectionRow(old(nextSectionId), labelAr, labelEn, if isEnabled then 1 else 0, sortOrder)]
      ensures r == Some(SectionView(old(nextSectionId), Label(lang, labelAr, labelEn), sortOrder, isEnabled))
      ensures nextSectionId == old(nextSectionId) + 1
      ensures nextCardId == old(nextCardId) && nextItemTypeId == old(nextItemTypeId) && nextLinkId == old(nextLinkId)
      ensures cards == old(cards) && itemTypes == old(itemTypes) && sectionItemTypes == old(sectionItemTypes) && subjectSections == old(subjectSections)
    {
      var row := SectionRow(nextSectionId, labelAr, labelEn, if isEnabled then 1 else 0, sortOrder);
      KeysDistinctAppend(sections, (s: SectionRow) => s.id, row);
      sections := sections + [row];
      nextSectionId := nextSectionId + 1;
      r := GetSection(sections, row.id, lang, true);
      assert r == Some(SectionViewOf(row, lang)) by {
        SectionReadBack(sections, row, lang);
      }
    }

    /** `update_section`: no fields changes nothing; otherwise the named
        columns of that row change. Either way the row is read back. */
    method UpdateSection(id: int, patch: SectionPatch, lang: Lang) returns (r: Option<SectionView>)
      requires Valid()
      modifies this
      ensures Valid()
      ensures Counters() == old(Counters())
      ensures patch.IsEmpty() ==> sections == old(sections)
      ensures !patch.IsEmpty() ==> sections == Map(old(sections), (s: SectionRow) => if s.id == id then PatchSection(s, patch) else s)
      ensures r == GetSection(sections, id, lang, true)
      ensures cards == old(cards) && itemTypes == old(itemTypes) && sectionItemTypes == old(sectionItemTypes) && subjectSections == old(subjectSections)
    {
      if !patch.IsEmpty() {
        var updated := Map(sections, (s: SectionRow) => if s.id == id then PatchSection(s, patch) else s);
        KeysDistinctRewrite(sections, updated, (s: SectionRow) => s.id);
        assert forall s :: s in updated ==> s.id < nextSectionId;
        sections := updated;
      }
      r := GetSection(sections, id, lang, true);
    }

    /** `delete_section`. */
    method DeleteSection(id: int)
      requires Valid()
      modifies this
      ensures Valid()
      ensures Counters() == old(Counters())
      ensures sections == Filter(old(sections), (s: SectionRow) => s.id != id)
      ensures GetSection(sections, id, Ar, true).None?
      ensures cards == old(cards) && itemTypes == old(itemTypes) && sectionItemTypes == old(sectionItemTypes) && subjectSections == old(subjectSections)
    {
      KeysDistinctFilter(sections, (s: SectionRow) => s.id, (s: SectionRow) => s.id != id);
      sections := Filter(sections, (s: SectionRow) => s.id != id);
    }

    /** `create_card` (`show_when_empty` defaults to false in the source);
        `None` for `sectionId` stores a card with no section. */
    method CreateCard(sectionId: Option<int>, labelAr: string, labelEn: string, showWhenEmpty: bool, isEnabled: bool, sortOrder: int, lang: Lang)
      returns (r: Option<CardView>)
      requires Valid()
      modifies this
      ensures Valid()
      ensures forall c :: c in old(cards) ==> c.id != old(nextCardId)
      ensures cards == old(cards) + [CardRow(old(nextCardId), sectionId, labelAr, labelEn, if showWhenEmpty then 1 else 0, if isEnabled then 1 else 0, sortOrder)]
      ensures r == Some(CardView(old(nextCardId), sectionId, Label(lang, labelAr, labelEn), showWhenEmpty, isEnabled, sortOrder))
      ensures nextCardId == old(nextCardId) + 1
      ensures nextSectionId == old(nextSectionId) && nextItemTypeId == old(nextItemTypeId) && nextLinkId == old(nextLinkId)
      ensures sections == old(sections) && itemTypes == old(itemTypes) && sectionItemTypes == old(sectionItemTypes) && subjectSections == old(subjectSections)
    {
      var row := CardRow(nextCardId, sectionId, labelAr, labelEn, if showWhenEmpty then 1 else 0, if isEnabled then 1 else 0, sortOrder);
      KeysDistinctAppend(cards, (c: CardRow) => c.id, row);
      cards := cards + [row];
      nextCardId := nextCardId + 1;
      r := GetCard(cards, row.id, lang, true);
      assert r == Some(CardViewOf(row, lang)) by {
        CardReadBack(cards, row, lang);
      }
    }

    /** `update_card`. */
    method UpdateCard(id: int, patch: CardPatch, lang: Lang) returns (r: Option<CardView>)
      requires Valid()
      modifies this
      ensures Valid()
      ensures Counters() == old(Counters())
      ensures patch.IsEmpty() ==> cards == old(cards)
      ensures !patch.IsEmpty() ==> cards == Map(old(cards), (c: CardRow) => if c.id == id then PatchCard(c, patch) else c)
      ensures r == GetCard(cards, id, lang, true)
      ensures sections == old(sections) && itemTypes == old(itemTypes) && sectionItemTypes == old(sectionItemTypes) && subjectSections == old(subjectSections)
    {
      if !patch.IsEmpty() {
        var updated := Map(cards, (c: CardRow) => if c.id == id then PatchCard(c, patch) else c);
        KeysDistinctRewrite(cards, updated, (c: CardRow) => c.id);
        assert forall c :: c in updated ==> c.id < nextCardId;
        cards := updated;
      }
      r := GetCard(cards, id, lang, true);
    }

    /** `delete_card`. */
    method DeleteCard(id: int)
      requires Valid()
      modifies this
      ensures Valid()
      ensures Counters() == old(Counters())
      ensures cards == Filter(old(cards), (c: CardRow) => c.id != id)
      ensures GetCard(cards, id, Ar, true).None?
      ensures sections == old(sections) && itemTypes == old(itemTypes) && sectionItemTypes == old(sectionItemTypes) && subjectSections == old(subjectSections)
    {
      KeysDistinctFilter(cards, (c: CardRow) => c.id, (c: CardRow) => c.id != id);
      cards := Filter(cards, (c: CardRow) => c.id != id);
    }

    /** `create_item_type` (defaults in the source: no lecture required, year
        and lecturer allowed). */
    method CreateItemType(labelAr: string, labelEn: string, requiresLecture: bool, allowsYear: bool, allowsLecturer: bool,
                          isEnabled: bool, sortOrder: int, lang: Lang)
      returns (r: Option<ItemTypeView>)
      requires Valid()
      modifies this
      ensures Valid()
      ensures forall t :: t in old(itemTypes) ==> t.id != old(nextItemTypeId)
      ensures itemTypes == old(itemTypes) + [ItemTypeRow(old(nextItemTypeId), labelAr, labelEn, if requiresLecture then 1 else 0, if allowsYear then 1 else 0,
                                                         if allowsLecturer then 1 else 0, if isEnabled then 1 else 0, sortOrder)]
      ensures r == Some(ItemTypeView(old(nextItemTypeId), Label(lang, labelAr, labelEn), requiresLecture, allowsYear, allowsLecturer, isEnabled, sortOrder))
      ensures nextItemTypeId == old(nextItemTypeId) + 1
      ensures nextSectionId == old(nextSectionId) && nextCardId == old(nextCardId) && nextLinkId == old(nextLinkId)
      ensures sections == old(sections) && cards == old(cards) && sectionItemTypes == old(sectionItemTypes) && subjectSections == old(subjectSections)
    {
      var row := ItemTypeRow(nextItemTypeId, labelAr, labelEn, if requiresLecture then 1 else 0, if allowsYear then 1 else 0,
                             if allowsLecturer then 1 else 0, if isEnabled then 1 else 0, sortOrder);
      KeysDistinctAppend(itemTypes, (t: ItemTypeRow) => t.id, row);
      itemTypes := itemTypes + [row];
      nextItemTypeId := nextItemTypeId + 1;
      r := GetItemType(itemTypes, row.id, lang, true);
      assert r == Some(ItemTypeViewOf(row, lang)) by {
        ItemTypeReadBack(itemTypes, row, lang);
      }
    }

    /** `update_item_type`. */
    method UpdateItemType(id: int, patch: ItemTypePatch, lang: Lang) returns (r: Option<ItemTypeView>)
      requires Valid()
      modifies this
      ensures Valid()
      ensures Counters() == old(Counters())
      ensures patch.IsEmpty() ==> itemTypes == old(itemTypes)
      ensures !patch.IsEmpty() ==> itemTypes == Map(old(itemTypes), (t: ItemTypeRow) => if t.id == id then PatchItemType(t, patch) else t)
      ensures r == GetItemType(itemTypes, id, lang, true)
      ensures sections == old(sections) && cards == old(cards) && sectionItemTypes == old(sectionItemTypes) && subjectSections == old(subjectSections)
    {
      if !patch.IsEmpty() {
        var updated := Map(itemTypes, (t: ItemTypeRow) => if t.id == id then PatchItemType(t, patch) else t);
        KeysDistinctRewrite(itemTypes, updated, (t: ItemTypeRow) => t.id);
        assert forall t :: t in updated ==> t.id < nextItemTypeId;
        itemTypes := updated;
      }
      r := GetItemType(itemTypes, id, lang, true);
    }

    /** `delete_item_type`. */
    method DeleteItemType(id: int)
      requires Valid()
      modifies this
      ensures Valid()
      ensures Counters() == old(Counters())
      ensures itemTypes == Filter(old(itemTypes), (t: ItemTypeRow) => t.id != id)
      ensures GetItemType(itemTypes, id, Ar, true).None?
      ensures sections == old(sections) && cards == old(cards) && sectionItemTypes == old(sectionItemTypes) && subjectSections == old(subjectSections)
    {
      KeysDistinctFilter(itemTypes, (t: ItemTypeRow) => t.id, (t: ItemTypeRow) => t.id != id);
      itemTypes := Filter(itemTypes, (t: ItemTypeRow) => t.id != id);
    }

    /** `set_section_item_type`: an upsert on (section, item type) that
        overwrites the flag and the order of an existing link. */
    method SetSectionItemType(sectionId: int, itemTypeId: int, isEnabled: bool, sortOrder: int)
      requires Valid()
      modifies this
      ensures Valid()
      ensures sectionItemTypes == UpsertLink(old(sectionItemTypes), old(nextLinkId), sectionId, itemTypeId, if isEnabled then 1 else 0, sortOrder)
      ensures nextSectionId == old(nextSectionId) && nextCardId == old(nextCardId) && nextItemTypeId == old(nextItemTypeId)
      ensures sections == old(sections) && cards == old(cards) && itemTypes == old(itemTypes) && subjectSections == old(subjectSections)
    {
      var flag := if isEnabled then 1 else 0;
      var updated := UpsertLink(sectionItemTypes, nextLinkId, sectionId, itemTypeId, flag, sortOrder);
      UpsertLinkKeys(sectionItemTypes, nextLinkId, sectionId, itemTypeId, flag, sortOrder);
      if !exists l :: l in sectionItemTypes && LinkKey(l) == (sectionId, itemTypeId) {
        nextLinkId := nextLinkId + 1;
      }
      sectionItemTypes := updated;
    }

    /** `set_subject_section_enable`: an upsert on (subject, section). */
    method SetSubjectSectionEnable(subjectId: int, sectionId: int, isEnabled: bool, sortOrder: int)
      requires Valid()
      modifies this
      ensures Valid()
      ensures Counters() == old(Counters())
      ensures subjectSections == UpsertEnable(old(subjectSections), subjectId, sectionId, if isEnabled then 1 else 0, sortOrder)
      ensures sections == old(sections) && cards == old(cards) && itemTypes == old(itemTypes) && sectionItemTypes == old(sectionItemTypes)
    {
      var flag := if isEnabled then 1 else 0;
      var updated := UpsertEnable(subjectSections, subjectId, sectionId, flag, sortOrder);
      if exists e :: e in subjectSections && e.subjectId == subjectId && e.sectionId == sectionId {
        KeysDistinctRewrite(subjectSections, updated, EnableKey);
      } else {
        KeysDistinctAppend(subjectSections, EnableKey, SubjectSectionRow(subjectId, sectionId, flag, sortOrder));
      }
      subjectSections := updated;
    }
  }

  /** A stored section is read back by its id, disabled or not. */
  lemma SectionReadBack(sections: seq<SectionRow>, row: SectionRow, lang: Lang)
    requires KeysDistinct(sections, (s: SectionRow) => s.id) && row in sections
    ensures GetSection(sections, row.id, lang, true) == Some(SectionViewOf(row, lang))
  {
    assert SectionVisible(row, true);
    var r := GetSection(sections, row.id, lang, true);
    var s :| s in sections && s.id == row.id && r.value == SectionViewOf(s, lang);
    KeyIdentifies(sections, (s: SectionRow) => s.id, s, row);
  }

  /** A stored card is read back by its id, disabled or not. */
  lemma CardReadBack(cards: seq<CardRow>, row: CardRow, lang: Lang)
    requires KeysDistinct(cards, (c: CardRow) => c.id) && row in cards
    ensures GetCard(cards, row.id, lang, true) == Some(CardViewOf(row, lang))
  {
    assert CardVisible(row, true);
    var r := GetCard(cards, row.id, lang, true);
    var c :| c in cards && c.id == row.id && r.value == CardViewOf(c, lang);
    KeyIdentifies(cards, (c: CardRow) => c.id, c, row);
  }

  /** A card stored without a section: `get_cards()` lists it (when it is
      visible), while `get_cards(section_id=s)` never does, whatever `s`. */
  lemma UnsectionedCardListing(cards: seq<CardRow>, c: CardRow, lang: Lang, includeDisabled: bool, s: int)
    requires c in cards && c.sectionId.None?
    ensures CardVisible(c, includeDisabled) ==> CardViewOf(c, lang) in GetCards(cards, None, lang, includeDisabled)
    ensures CardViewOf(c, lang) !in GetCards(cards, Some(s), lang, includeDisabled)
  {
    if CardVisible(c, includeDisabled) {
      assert CardSelected(c, None, includeDisabled);
    }
  }

  /** A stored item type is read back by its id, disabled or not. */
  lemma ItemTypeReadBack(items: seq<ItemTypeRow>, row: ItemTypeRow, lang: Lang)
    requires KeysDistinct(items, (t: ItemTypeRow) => t.id) && row in items
    ensures GetItemType(items, row.id, lang, true) == Some(ItemTypeViewOf(row, lang))
  {
    assert ItemTypeVisible(row, true);
    var r := GetItemType(items, row.id, lang, true);
    var t :| t in items && t.id == row.id && r.value == ItemTypeViewOf(t, lang);
    KeyIdentifies(items, (t: ItemTypeRow) => t.id, t, row);
  }

  /** After `set_subject_section_enable(subject, section, True, k)` on an
      enabled section, the subject's section list shows that section with
      order k; after disabling it, the list does not show it. */
  lemma EnableShowsSection(sections: seq<SectionRow>, enables: seq<SubjectSectionRow>, subjectId: int, s: SectionRow,
                           enabled: bool, sortOrder: int, lang: Lang)
    requires KeysDistinct(sections, (x: SectionRow) => x.id) && KeysDistinct(enables, EnableKey)
    requires s in sections && Enabled(s.isEnabled)
    ensures var after := UpsertEnable(enables, subjectId, s.id, if enabled then 1 else 0, sortOrder);
      var v := LinkView(s.id, Label(lang, s.labelAr, s.labelEn), sortOrder, enabled);
      (v in GetSectionsForSubject(sections, after, subjectId, lang, false) <==> enabled)
      && forall w :: w in GetSectionsForSubject(sections, after, subjectId, lang, false) && w.id == s.id ==> w == v
  {
    var after := UpsertEnable(enables, subjectId, s.id, if enabled then 1 else 0, sortOrder);
    var row := SubjectSectionRow(subjectId, s.id, if enabled then 1 else 0, sortOrder);
    var found := SectionById(sections, s.id);
    KeyIdentifies(sections, (x: SectionRow) => x.id, found.value, s);
    var v := LinkView(s.id, Label(lang, s.labelAr, s.labelEn), sortOrder, enabled);
    if enabled {
      assert SectionLink(sections, row, subjectId, lang, false) == Some(v);
    }
    forall w | w in GetSectionsForSubject(sections, after, subjectId, lang, false) && w.id == s.id
      ensures w == v && enabled
    {
      var e :| e in after && SectionLink(sections, e, subjectId, lang, false) == Some(w);
      assert e.subjectId == subjectId && e.sectionId == s.id;
    }
  }
}
