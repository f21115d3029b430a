/** `build_menu`: the buttons of a subject's navigation menu, one group per
    enabled section that has materials: the section itself, then its cards
    (material categories) and its item types that are worth showing. */
module NavMenu {
  import opened Wrappers
  import opened Seqs
  import Text
  import T = Taxonomy

  /** `(kind, identifier, label)`. */
  datatype Button = Button(kind: string, ident: string, caption: string)

  /** What the material counting helpers read of a material: its subject,
      section, category (card) and item type. */
  datatype MaterialRef = MaterialRef(subjectId: int, sectionId: Option<int>, categoryId: Option<int>, itemTypeId: Option<int>)

  /** The taxonomy tables the menu reads. */
  datatype Catalog = Catalog(sections: seq<T.SectionRow>, cards: seq<T.CardRow>, items: seq<T.ItemTypeRow>,
                             links: seq<T.SectionItemTypeRow>, enables: seq<T.SubjectSectionRow>)

  function OfSubject(mats: seq<MaterialRef>, subjectId: int): seq<MaterialRef> {
    Filter(mats, (m: MaterialRef) => m.subjectId == subjectId)
  }

  /** The subject's materials in one section (`get_materials(subject,
      section_id=...)`, whose length is `count_by_section`). */
  function OfSection(mats: seq<MaterialRef>, subjectId: int, sectionId: int): seq<MaterialRef> {
    Filter(mats, (m: MaterialRef) => m.subjectId == subjectId && m.sectionId == Some(sectionId))
  }

  /** `count_by_item_type(subject, section, item_type)`. */
  function ItemTypeCount(mats: seq<MaterialRef>, subjectId: int, sectionId: int, itemTypeId: int): nat {
    |Filter(OfSection(mats, subjectId, sectionId), (m: MaterialRef) => m.itemTypeId == Some(itemTypeId))|
  }

  /** A card is shown when it asks to be shown empty or some material of the
      section is filed under it. */
  predicate CardShown(c: T.CardView, secMats: seq<MaterialRef>) {
    c.showWhenEmpty || exists m :: m in secMats && m.categoryId == Some(c.id)
  }

  function SectionButton(s: T.LinkView): Button {
    Button("section", Text.IntToString(s.id), s.caption)
  }

  function CardButton(c: T.CardView): Button {
    Button("card", Text.IntToString(c.id), c.caption)
  }

  /** An item type's button carries `"{section}-{item type}"`. */
  function ItemTypeButton(sectionId: int, t: T.LinkView): Button {
    Button("item_type", Text.IntToString(sectionId) + "-" + Text.IntToString(t.id), t.caption)
  }

  function ShownIn(secMats: seq<MaterialRef>): T.CardView -> bool {
    (c: T.CardView) => CardShown(c, secMats)
  }

  function HasMaterials(mats: seq<MaterialRef>, subjectId: int, sectionId: int): T.LinkView -> bool {
    (t: T.LinkView) => ItemTypeCount(mats, subjectId, sectionId, t.id) != 0
  }

  function ItemTypeButtonIn(sectionId: int): T.LinkView -> Button {
    (t: T.LinkView) => ItemTypeButton(sectionId, t)
  }

  /** The card buttons of a section, in card order. */
  function CardButtons(cards: seq<T.CardView>, secMats: seq<MaterialRef>): seq<Button> {
    Map(Filter(cards, ShownIn(secMats)), CardButton)
  }

  /** The item-type buttons of a section, in link order. */
  function ItemTypeButtons(mats: seq<MaterialRef>, subjectId: int, sectionId: int, types: seq<T.LinkView>): seq<Button> {
    Map(Filter(types, HasMaterials(mats, subjectId, sectionId)), ItemTypeButtonIn(sectionId))
  }

  function SectionCards(cat: Catalog, lang: T.Lang, sectionId: int): seq<T.CardView> {
    T.GetCards(cat.cards, Some(sectionId), lang, false)
  }

  function SectionItemTypes(cat: Catalog, lang: T.Lang, sectionId: int): seq<T.LinkView> {
    T.GetItemTypesForSection(cat.items, cat.links, sectionId, lang, false)
  }

  /** The buttons one section contributes: nothing when it has no
      materials, else its own button, its cards and its item types. */
  function SectionGroup(cat: Catalog, mats: seq<MaterialRef>, subjectId: int, lang: T.Lang, s: T.LinkView): seq<Button> {
    if |OfSection(mats, subjectId, s.id)| == 0 then []
    else
      [SectionButton(s)]
      + (CardButtons(SectionCards(cat, lang, s.id), OfSection(mats, subjectId, s.id))
         + ItemTypeButtons(mats, subjectId, s.id, SectionItemTypes(cat, lang, s.id)))
  }

  function Groups(cat: Catalog, mats: seq<MaterialRef>, subjectId: int, lang: T.Lang, secs: seq<T.LinkView>): seq<Button> {
    if secs == [] then []
    else Groups(cat, mats, subjectId, lang, secs[..|secs| - 1]) + SectionGroup(cat, mats, subjectId, lang, secs[|secs| - 1])
  }

  /** The sections enabled for the subject, in enablement order. */
  function SubjectSections(cat: Catalog, subjectId: int, lang: T.Lang): seq<T.LinkView> {
    T.GetSectionsForSubject(cat.sections, cat.enables, subjectId, lang, false)
  }

  /** The menu `build_menu` returns: empty for a subject without materials,
      else the groups of its sections in order. */
  function Menu(cat: Catalog, mats: seq<MaterialRef>, subjectId: int, lang: T.Lang): seq<Button> {
    if |OfSubject(mats, subjectId)| == 0 then []
    else Groups(cat, mats, subjectId, lang, SubjectSections(cat, subjectId, lang))
  }

  // ----- what the menu holds ---------------------------------------------

  lemma {:induction false} GroupsMembers(cat: Catalog, mats: seq<MaterialRef>, subjectId: int, lang: T.Lang,
                                         secs: seq<T.LinkView>, b: Button)
    ensures b in Groups(cat, mats, subjectId, lang, secs) <==>
      exists s :: s in secs && b in SectionGroup(cat, mats, subjectId, lang, s)
    decreases |secs|
  {
    if secs != [] {
      var init := secs[..|secs| - 1];
      GroupsMembers(cat, mats, subjectId, lang, init, b);
      assert forall s :: s in secs <==> s in init || s == secs[|secs| - 1];
    }
  }

  lemma CardButtonsMembers(cards: seq<T.CardView>, secMats: seq<MaterialRef>, b: Button)
    ensures b in CardButtons(cards, secMats) <==> exists c :: c in cards && CardShown(c, secMats) && b == CardButton(c)
  {
    SelectedMembers(cards, ShownIn(secMats), CardButton);
  }

  lemma ItemTypeButtonsMembers(mats: seq<MaterialRef>, subjectId: int, sectionId: int,
                               types: seq<T.LinkView>, b: Button)
    ensures b in ItemTypeButtons(mats, subjectId, sectionId, types) <==>
      exists t :: t in types && ItemTypeCount(mats, subjectId, sectionId, t.id) != 0 && b == ItemTypeButton(sectionId, t)
  {
    SelectedMembers(types, HasMaterials(mats, subjectId, sectionId), ItemTypeButtonIn(sectionId));
  }

  lemma CardKinds(cards: seq<T.CardView>, secMats: seq<MaterialRef>)
    ensures forall b :: b in CardButtons(cards, secMats) ==> b.kind == "card"
  {
  }

  lemma ItemTypeKinds(mats: seq<MaterialRef>, subjectId: int, sectionId: int, types: seq<T.LinkView>)
    ensures forall b :: b in ItemTypeButtons(mats, subjectId, sectionId, types) ==> b.kind == "item_type"
  {
  }

  /** The buttons of a section's group: its own, its cards' and its item
      types', when it has materials. */
  lemma SectionGroupMembers(cat: Catalog, mats: seq<MaterialRef>, subjectId: int, lang: T.Lang, s: T.LinkView, b: Button)
    ensures b in SectionGroup(cat, mats, subjectId, lang, s) <==>
      |OfSection(mats, subjectId, s.id)| > 0
      && (b == SectionButton(s)
          || b in CardButtons(SectionCards(cat, lang, s.id), OfSection(mats, subjectId, s.id))
          || b in ItemTypeButtons(mats, subjectId, s.id, SectionItemTypes(cat, lang, s.id)))
  {
  }

  /** A section's group opens with the section's own button, and no other
      button of the group is a section button. */
  lemma SectionGroupShape(cat: Catalog, mats: seq<MaterialRef>, subjectId: int, lang: T.Lang, s: T.LinkView)
    ensures var g := SectionGroup(cat, mats, subjectId, lang, s);
      (g == [] <==> |OfSection(mats, subjectId, s.id)| == 0)
      && (g != [] ==> g[0] == SectionButton(s) && forall i :: 1 <= i < |g| ==> g[i].kind != "section")
  {
    var g := SectionGroup(cat, mats, subjectId, lang, s);
    if g != [] {
      var cards := CardButtons(SectionCards(cat, lang, s.id), OfSection(mats, subjectId, s.id));
      var types := ItemTypeButtons(mats, subjectId, s.id, SectionItemTypes(cat, lang, s.id));
      CardKinds(SectionCards(cat, lang, s.id), OfSection(mats, subjectId, s.id));
      ItemTypeKinds(mats, subjectId, s.id, SectionItemTypes(cat, lang, s.id));
      TailKinds(SectionButton(s), cards, types);
    }
  }

  lemma TailKinds(head: Button, cards: seq<Button>, types: seq<Button>)
    requires forall b :: b in cards ==> b.kind == "card"
    requires forall b :: b in types ==> b.kind == "item_type"
    ensures forall i :: 1 <= i < |[head] + (cards + types)| ==> ([head] + (cards + types))[i].kind != "section"
  {
    forall i | 1 <= i < |[head] + (cards + types)| ensures ([head] + (cards + types))[i].kind != "section" {
      assert ([head] + (cards + types))[i] == (cards + types)[i - 1];
      assert (cards + types)[i - 1] in cards || (cards + types)[i - 1] in types;
    }
  }

  /** A section with materials means the subject has materials. */
  lemma SubjectHasMaterials(mats: seq<MaterialRef>, subjectId: int, sectionId: int)
    requires |OfSection(mats, subjectId, sectionId)| > 0
    ensures |OfSubject(mats, subjectId)| > 0
  {
    var m := OfSection(mats, subjectId, sectionId)[0];
    assert m in OfSubject(mats, subjectId);
  }

  /** Which group a button of the menu comes from. */
  lemma MenuMembers(cat: Catalog, mats: seq<MaterialRef>, subjectId: int, lang: T.Lang, b: Button)
    ensures b in Menu(cat, mats, subjectId, lang) <==>
      exists s :: s in SubjectSections(cat, subjectId, lang) && b in SectionGroup(cat, mats, subjectId, lang, s)
  {
    GroupsMembers(cat, mats, subjectId, lang, SubjectSections(cat, subjectId, lang), b);
    if exists s :: s in SubjectSections(cat, subjectId, lang) && b in SectionGroup(cat, mats, subjectId, lang, s) {
      var s :| s in SubjectSections(cat, subjectId, lang) && b in SectionGroup(cat, mats, subjectId, lang, s);
      SubjectHasMaterials(mats, subjectId, s.id);
    }
  }

  /** A section button is in the menu exactly for the subject's enabled
      sections that have materials. */
  lemma SectionButtonShown(cat: Catalog, mats: seq<MaterialRef>, subjectId: int, lang: T.Lang, b: Button)
    ensures b in Menu(cat, mats, subjectId, lang) && b.kind == "section" <==>
      exists s :: s in SubjectSections(cat, subjectId, lang) && |OfSection(mats, subjectId, s.id)| > 0 && b == SectionButton(s)
  {
    MenuMembers(cat, mats, subjectId, lang, b);
    if b in Menu(cat, mats, subjectId, lang) && b.kind == "section" {
      var s :| s in SubjectSections(cat, subjectId, lang) && b in SectionGroup(cat, mats, subjectId, lang, s);
      SectionGroupMembers(cat, mats, subjectId, lang, s, b);
      CardKinds(SectionCards(cat, lang, s.id), OfSection(mats, subjectId, s.id));
      ItemTypeKinds(mats, subjectId, s.id, SectionItemTypes(cat, lang, s.id));
    }
    if exists s :: s in SubjectSections(cat, subjectId, lang) && |OfSection(mats, subjectId, s.id)| > 0 && b == SectionButton(s) {
      var s :| s in SubjectSections(cat, subjectId, lang) && |OfSection(mats, subjectId, s.id)| > 0 && b == SectionButton(s);
      SectionGroupMembers(cat, mats, subjectId, lang, s, b);
    }
  }

  /** A card button is in the menu exactly for the cards of a shown section
      that are shown empty or have a material filed under them. */
  lemma CardButtonShown(cat: Catalog, mats: seq<MaterialRef>, subjectId: int, lang: T.Lang, b: Button)
    ensures b in Menu(cat, mats, subjectId, lang) && b.kind == "card" <==>
      exists s, c :: s in SubjectSections(cat, subjectId, lang) && |OfSection(mats, subjectId, s.id)| > 0
        && c in SectionCards(cat, lang, s.id) && CardShown(c, OfSection(mats, subjectId, s.id)) && b == CardButton(c)
  {
    if b in Menu(cat, mats, subjectId, lang) && b.kind == "card" {
      CardButtonOrigin(cat, mats, subjectId, lang, b);
    }
    if exists s, c :: s in SubjectSections(cat, subjectId, lang) && |OfSection(mats, subjectId, s.id)| > 0
         && c in SectionCards(cat, lang, s.id) && CardShown(c, OfSection(mats, subjectId, s.id)) && b == CardButton(c) {
      var s, c :| s in SubjectSections(cat, subjectId, lang) && |OfSection(mats, subjectId, s.id)| > 0
        && c in SectionCards(cat, lang, s.id) && CardShown(c, OfSection(mats, subjectId, s.id)) && b == CardButton(c);
      CardButtonListed(cat, mats, subjectId, lang, s, c);
    }
  }

  lemma CardButtonOrigin(cat: Catalog, mats: seq<MaterialRef>, subjectId: int, lang: T.Lang, b: Button)
    requires b in Menu(cat, mats, subjectId, lang) && b.kind == "card"
    ensures exists s, c :: (s in SubjectSections(cat, subjectId, lang) && |OfSection(mats, subjectId, s.id)| > 0
      && c in SectionCards(cat, lang, s.id) && CardShown(c, OfSection(mats, subjectId, s.id)) && b == CardButton(c))
  {
    MenuMembers(cat, mats, subjectId, lang, b);
    var s :| s in SubjectSections(cat, subjectId, lang) && b in SectionGroup(cat, mats, subjectId, lang, s);
    SectionGroupMembers(cat, mats, subjectId, lang, s, b);
    ItemTypeKinds(mats, subjectId, s.id, SectionItemTypes(cat, lang, s.id));
    CardButtonsMembers(SectionCards(cat, lang, s.id), OfSection(mats, subjectId, s.id), b);
  }

  lemma CardButtonListed(cat: Catalog, mats: seq<MaterialRef>, subjectId: int, lang: T.Lang, s: T.LinkView, c: T.CardView)
    requires s in SubjectSections(cat, subjectId, lang) && |OfSection(mats, subjectId, s.id)| > 0
    requires c in SectionCards(cat, lang, s.id) && CardShown(c, OfSection(mats, subjectId, s.id))
    ensures CardButton(c) in Menu(cat, mats, subjectId, lang)
  {
    var b := CardButton(c);
    CardButtonsMembers(SectionCards(cat, lang, s.id), OfSection(mats, subjectId, s.id), b);
    SectionGroupMembers(cat, mats, subjectId, lang, s, b);
    MenuMembers(cat, mats, subjectId, lang, b);
  }

  /** An item-type button is in the menu exactly for the item types of a
      shown section that have materials there. */
  lemma ItemTypeButtonShown(cat: Catalog, mats: seq<MaterialRef>, subjectId: int, lang: T.Lang, b: Button)
    ensures b in Menu(cat, mats, subjectId, lang) && b.kind == "item_type" <==>
      exists s, t :: s in SubjectSections(cat, subjectId, lang) && |OfSection(mats, subjectId, s.id)| > 0
        && t in SectionItemTypes(cat, lang, s.id) && ItemTypeCount(mats, subjectId, s.id, t.id) != 0
        && b == ItemTypeButton(s.id, t)
  {
    if b in Menu(cat, mats, subjectId, lang) && b.kind == "item_type" {
      ItemTypeButtonOrigin(cat, mats, subjectId, lang, b);
    }
    if exists s, t :: s in SubjectSections(cat, subjectId, lang) && |OfSection(mats, subjectId, s.id)| > 0
         && t in SectionItemTypes(cat, lang, s.id) && ItemTypeCount(mats, subjectId, s.id, t.id) != 0
         && b == ItemTypeButton(s.id, t) {
      var s, t :| s in SubjectSections(cat, subjectId, lang) && |OfSection(mats, subjectId, s.id)| > 0
        && t in SectionItemTypes(cat, lang, s.id) && ItemTypeCount(mats, subjectId, s.id, t.id) != 0
        && b == ItemTypeButton(s.id, t);
      ItemTypeButtonListed(cat, mats, subjectId, lang, s, t);
    }
  }

  lemma ItemTypeButtonOrigin(cat: Catalog, mats: seq<MaterialRef>, subjectId: int, lang: T.Lang, b: Button)
    requires b in Menu(cat, mats, subjectId, lang) && b.kind == "item_type"
    ensures exists s, t :: (s in SubjectSections(cat, subjectId, lang) && |OfSection(mats, subjectId, s.id)| > 0
      && t in SectionItemTypes(cat, lang, s.id) && ItemTypeCount(mats, subjectId, s.id, t.id) != 0
      && b == ItemTypeButton(s.id, t))
  {
    MenuMembers(cat, mats, subjectId, lang, b);
    var s :| s in SubjectSections(cat, subjectId, lang) && b in SectionGroup(cat, mats, subjectId, lang, s);
    SectionGroupMembers(cat, mats, subjectId, lang, s, b);
    CardKinds(SectionCards(cat, lang, s.id), OfSection(mats, subjectId, s.id));
    ItemTypeButtonsMembers(mats, subjectId, s.id, SectionItemTypes(cat, lang, s.id), b);
  }

  lemma ItemTypeButtonListed(cat: Catalog, mats: seq<MaterialRef>, subjectId: int, lang: T.Lang, s: T.LinkView, t: T.LinkView)
    requires s in SubjectSections(cat, subjectId, lang) && |OfSection(mats, subjectId, s.id)| > 0
    requires t in SectionItemTypes(cat, lang, s.id) && ItemTypeCount(mats, subjectId, s.id, t.id) != 0
    ensures ItemTypeButton(s.id, t) in Menu(cat, mats, subjectId, lang)
  {
    var b := ItemTypeButton(s.id, t);
    MenuMembers(cat, mats, subjectId, lang, b);
    ItemTypeButtonsMembers(mats, subjectId, s.id, SectionItemTypes(cat, lang, s.id), b);
    SectionGroupMembers(cat, mats, subjectId, lang, s, b);
  }

  // ----- the loops ---------------------------------------------------------

  /** `build_menu(subject_id, lang=...)`. */
  method BuildMenu(cat: Catalog, mats: seq<MaterialRef>, subjectId: int, lang: T.Lang) returns (buttons: seq<Button>)
    ensures buttons == Menu(cat, mats, subjectId, lang)
  {
    if |OfSubject(mats, subjectId)| == 0 {
      return [];
    }
    buttons := [];
    var sections := SubjectSections(cat, subjectId, lang);
    for i := 0 to |sections|
      invariant buttons == Groups(cat, mats, subjectId, lang, sections[..i])
    {
      var group := GroupOf(cat, mats, subjectId, lang, sections[i]);
      GroupsStep(cat, mats, subjectId, lang, sections, i);
      buttons := buttons + group;
    }
    assert sections[..|sections|] == sections;
  }

  lemma GroupsStep(cat: Catalog, mats: seq<MaterialRef>, subjectId: int, lang: T.Lang, secs: seq<T.LinkView>, i: nat)
    requires i < |secs|
    ensures Groups(cat, mats, subjectId, lang, secs[..i + 1])
         == Groups(cat, mats, subjectId, lang, secs[..i]) + SectionGroup(cat, mats, subjectId, lang, secs[i])
  {
    assert secs[..i + 1][..i] == secs[..i];
  }

  /** One turn of the loop over the sections. */
  method GroupOf(cat: Catalog, mats: seq<MaterialRef>, subjectId: int, lang: T.Lang, s: T.LinkView) returns (group: seq<Button>)
    ensures group == SectionGroup(cat, mats, subjectId, lang, s)
  {
    group := [];
    var secMats := OfSection(mats, subjectId, s.id);
    if |secMats| != 0 {
      var cards := SectionCards(cat, lang, s.id);
      var cardButtons: seq<Button> := [];
      if cards != [] {
        cardButtons := ShownCards(cards, secMats);
      }
      var typeButtons := ShownItemTypes(mats, subjectId, s.id, SectionItemTypes(cat, lang, s.id));
      group := [SectionButton(s)] + (cardButtons + typeButtons);
    }
  }

  /** The loop over a section's cards. */
  method ShownCards(cards: seq<T.CardView>, secMats: seq<MaterialRef>) returns (bs: seq<Button>)
    ensures bs == CardButtons(cards, secMats)
  {
    bs := [];
    for j := 0 to |cards|
      invariant bs == Map(Filter(cards[..j], ShownIn(secMats)), CardButton)
    {
      SelectStep(cards, j, ShownIn(secMats), CardButton);
      if CardShown(cards[j], secMats) {
        bs := bs + [CardButton(cards[j])];
      }
    }
    assert cards[..|cards|] == cards;
  }

  /** The loop over a section's item types. */
  method ShownItemTypes(mats: seq<MaterialRef>, subjectId: int, sectionId: int, types: seq<T.LinkView>) returns (bs: seq<Button>)
    ensures bs == ItemTypeButtons(mats, subjectId, sectionId, types)
  {
    bs := [];
    for k := 0 to |types|
      invariant bs == Map(Filter(types[..k], HasMaterials(mats, subjectId, sectionId)), ItemTypeButtonIn(sectionId))
    {
      SelectStep(types, k, HasMaterials(mats, subjectId, sectionId), ItemTypeButtonIn(sectionId));
      if ItemTypeCount(mats, subjectId, sectionId, types[k].id) != 0 {
        bs := bs + [ItemTypeButton(sectionId, types[k])];
      }
    }
    assert types[..|types|] == types;
  }
}
