/** The reply keyboards of the level → term → subject → section browser:
    button captions laid out two to a row by `_rows`, and the menus whose
    buttons depend on what exists. */
module Keyboards {
  import opened Seqs

  /** A reply keyboard: its rows of button captions. */
  type Keyboard = seq<seq<string>>

  const ShowSubjects := "📖 عرض المواد"
  const Plan := "🗂 الخطة الدراسية"
  const Links := "🔗 روابط المجموعات والقنوات"
  const AdvSearch := "🔎 البحث المتقدم"
  const Back := "🔙 العودة"
  const BackToLevels := "🔙 العودة لقائمة المستويات"
  const BackToSubjects := "🔙 العودة لقائمة المواد"
  const FilterByYear := "📂 حسب السنة"
  const FilterByLecturer := "👨‍🏫 حسب المحاضر"
  const ListLectures := "📚 عرض المحاضرات"
  const YearMenuLectures := "📚 المحاضرات"
  const ChooseYearForLecturer := "📅 اختر السنة"
  const ListLecturesForLecturer := "📚 محاضرات هذا المحاضر"
  const MidExam := "النصفي"
  const FinalExam := "النهائي"
  const ManageAdmins := "👤 إدارة المشرفين"

  /** `SECTION_LABELS`: the caption of each section code. */
  const SectionLabels: map<string, string> := map[
    "theory" := "📚 نظري",
    "discussion" := "💬 مناقشة",
    "lab" := "🧪 عملي",
    "syllabus" := "📄 المفردات الدراسية",
    "apps" := "📱 تطبيقات"
  ]

  /** `LABEL_TO_SECTION`, the inverse of `SECTION_LABELS`. */
  const LabelToSection: map<string, string> := map[
    "📚 نظري" := "theory",
    "💬 مناقشة" := "discussion",
    "🧪 عملي" := "lab",
    "📄 المفردات الدراسية" := "syllabus",
    "📱 تطبيقات" := "apps"
  ]

  /** `CATEGORY_TO_LABEL`: the caption of each material category. */
  const CategoryLabels: map<string, string> := map[
    "lecture" := "📄 ملف المحاضرة",
    "slides" := "📑 سلايدات المحاضرة",
    "audio" := "🎧 تسجيل صوتي",
    "video" := "🎥 تسجيل فيديو",
    "board_images" := "🖼️ صور السبورة",
    "external_link" := "🔗 روابط خارجية",
    "exam" := "📝 الامتحانات",
    "booklet" := "📘 الملازم",
    "summary" := "🧾 ملخص",
    "notes" := "🗒️ ملاحظات",
    "simulation" := "🧪 محاكاة",
    "mind_map" := "🗺️ خرائط ذهنية",
    "transcript" := "⌨️ تفريغ صوتي",
    "related" := "📎 ملفات ذات صلة"
  ]

  /** `LABEL_TO_CATEGORY`, the inverse of `CATEGORY_TO_LABEL`. */
  const LabelToCategory: map<string, string> := map[
    "📄 ملف المحاضرة" := "lecture",
    "📑 سلايدات المحاضرة" := "slides",
    "🎧 تسجيل صوتي" := "audio",
    "🎥 تسجيل فيديو" := "video",
    "🖼️ صور السبورة" := "board_images",
    "🔗 روابط خارجية" := "external_link",
    "📝 الامتحانات" := "exam",
    "📘 الملازم" := "booklet",
    "🧾 ملخص" := "summary",
    "🗒️ ملاحظات" := "notes",
    "🧪 محاكاة" := "simulation",
    "🗺️ خرائط ذهنية" := "mind_map",
    "⌨️ تفريغ صوتي" := "transcript",
    "📎 ملفات ذات صلة" := "related"
  ]

  /** A pressed section caption reads back as its code, and every caption
      read back names a section with that caption. */
  lemma SectionLabelsInvert()
    ensures forall s :: s in SectionLabels ==> SectionLabels[s] in LabelToSection && LabelToSection[SectionLabels[s]] == s
    ensures forall l :: l in LabelToSection ==> LabelToSection[l] in SectionLabels && SectionLabels[LabelToSection[l]] == l
  {
  }

  /** The category captions: each category's caption reads back as that
      category. */
  lemma CategoryLabelsInvert()
    ensures forall c :: c in CategoryLabels ==> CategoryLabels[c] in LabelToCategory && LabelToCategory[CategoryLabels[c]] == c
  {
  }

  /** Conversely, the category read back from a caption has that caption. */
  lemma LabelToCategoryInvert()
    ensures forall l :: l in LabelToCategory ==> LabelToCategory[l] in CategoryLabels && CategoryLabels[LabelToCategory[l]] == l
  {
  }

  // ----- `_rows` ------------------------------------------------------------

  /** All captions of a keyboard, row after row. */
  function Flatten<T>(rows: seq<seq<T>>): seq<T> {
    if rows == [] then [] else rows[0] + Flatten(rows[1..])
  }

  lemma {:induction false} FlattenAppend<T>(a: seq<seq<T>>, b: seq<seq<T>>)
    ensures Flatten(a + b) == Flatten(a) + Flatten(b)
    decreases |a|
  {
    if a == [] {
      assert a + b == b;
    } else {
      assert (a + b)[1..] == a[1..] + b;
      FlattenAppend(a[1..], b);
    }
  }

  lemma FlattenOne<T>(r: seq<T>)
    ensures Flatten([r]) == r
  {
    assert [r][1..] == [];
  }

  lemma FlattenTwo<T>(r1: seq<T>, r2: seq<T>)
    ensures Flatten([r1, r2]) == r1 + r2
  {
    assert [r1, r2][1..] == [r2];
    FlattenOne(r2);
  }

  /** Consecutive rows of `w` captions, the last one possibly shorter. */
  function Chunk<T>(xs: seq<T>, w: nat): seq<seq<T>>
    requires w >= 1
    decreases |xs|
  {
    if xs == [] then []
    else if |xs| <= w then [xs]
    else [xs[..w]] + Chunk(xs[w..], w)
  }

  /** The rows hold the captions in order, each row non-empty and at most
      `w` long, and all rows but the last exactly `w` long. */
  lemma ChunkShape<T>(xs: seq<T>, w: nat)
    requires w >= 1
    ensures Flatten(Chunk(xs, w)) == xs
    ensures forall i :: 0 <= i < |Chunk(xs, w)| ==> 1 <= |Chunk(xs, w)[i]| <= w
    ensures forall i :: 0 <= i < |Chunk(xs, w)| - 1 ==> |Chunk(xs, w)[i]| == w
  {
    ChunkFlatten(xs, w);
    ChunkWidths(xs, w);
  }

  lemma {:induction false} ChunkFlatten<T>(xs: seq<T>, w: nat)
    requires w >= 1
    ensures Flatten(Chunk(xs, w)) == xs
    decreases |xs|
  {
    if |xs| > w {
      var rest := Chunk(xs[w..], w);
      assert Chunk(xs, w) == [xs[..w]] + rest;
      ChunkFlatten(xs[w..], w);
      FlattenAppend([xs[..w]], rest);
      FlattenOne(xs[..w]);
      assert xs[..w] + xs[w..] == xs;
    } else if xs != [] {
      FlattenOne(xs);
    }
  }

  lemma {:induction false} ChunkWidths<T>(xs: seq<T>, w: nat)
    requires w >= 1
    ensures forall i :: 0 <= i < |Chunk(xs, w)| ==> 1 <= |Chunk(xs, w)[i]| <= w
    ensures forall i :: 0 <= i < |Chunk(xs, w)| - 1 ==> |Chunk(xs, w)[i]| == w
    decreases |xs|
  {
    if |xs| > w {
      ChunkWidths(xs[w..], w);
      var r := Chunk(xs, w);
      assert r[1..] == Chunk(xs[w..], w);
    }
  }

  /** A sequence that fills whole rows of `w`. */
  predicate WholeRows<T>(a: seq<T>, w: nat)
    requires w >= 1
    decreases |a|
  {
    a == [] || (|a| >= w && WholeRows(a[w..], w))
  }

  /** A full row after whole rows still makes whole rows. */
  lemma {:induction false} WholeRowsAppend<T>(a: seq<T>, b: seq<T>, w: nat)
    requires w >= 1 && WholeRows(a, w) && |b| == w
    ensures WholeRows(a + b, w)
    decreases |a|
  {
    if a == [] {
      assert a + b == b;
      assert b[w..] == [];
    } else {
      assert (a + b)[w..] == a[w..] + b;
      WholeRowsAppend(a[w..], b, w);
    }
  }

  /** Cutting after whole rows: the rows of the two parts. */
  lemma {:induction false} ChunkAppend<T>(a: seq<T>, b: seq<T>, w: nat)
    requires w >= 1 && WholeRows(a, w)
    ensures Chunk(a + b, w) == Chunk(a, w) + Chunk(b, w)
    decreases |a|
  {
    if a == [] {
      assert a + b == b;
    } else if |a + b| <= w {
      assert b == [];
      assert a + b == a;
    } else {
      assert (a + b)[..w] == a[..w];
      assert (a + b)[w..] == a[w..] + b;
      ChunkAppend(a[w..], b, w);
      if |a| == w {
        assert a[w..] == [];
        assert a[w..] + b == b;
        assert a[..w] == a;
      }
    }
  }

  /** A row of at most `w` captions is one row. */
  lemma OneRow<T>(row: seq<T>, w: nat)
    requires w >= 1 && 1 <= |row| <= w
    ensures Chunk(row, w) == [row]
  {
  }

  /** A caption is shown only when it is not empty. */
  predicate Present(s: string) {
    s != ""
  }

  /** What `_rows(items, cols)` returns: the non-empty captions, `cols` to
      a row, or all in one row when `cols` is not positive. */
  function RowsOf(items: seq<string>, cols: int): Keyboard {
    var kept := Filter(items, Present);
    if cols <= 0 then (if kept == [] then [] else [kept]) else Chunk(kept, cols)
  }

  /** `_rows` drops the empty captions and keeps the others in order, in
      non-empty rows of at most `cols` (when `cols` is positive). */
  lemma RowsShape(items: seq<string>, cols: int)
    ensures Flatten(RowsOf(items, cols)) == Filter(items, Present)
    ensures forall i :: 0 <= i < |RowsOf(items, cols)| ==>
      RowsOf(items, cols)[i] != [] && (cols >= 1 ==> |RowsOf(items, cols)[i]| <= cols)
    ensures forall x :: x in Flatten(RowsOf(items, cols)) <==> x in items && x != ""
  {
    var kept := Filter(items, Present);
    if cols >= 1 {
      ChunkShape(kept, cols);
    } else if kept != [] {
      assert Flatten([kept]) == kept + Flatten([]);
    }
  }

  /** Captions that are all non-empty pass through `_rows` unchanged. */
  lemma RowsOfPresent(items: seq<string>, cols: int)
    requires forall i :: 0 <= i < |items| ==> items[i] != ""
    ensures Flatten(RowsOf(items, cols)) == items
    ensures forall i :: 0 <= i < |RowsOf(items, cols)| ==>
      RowsOf(items, cols)[i] != [] && (cols >= 1 ==> |RowsOf(items, cols)[i]| <= cols)
  {
    RowsShape(items, cols);
    FilterAll(items, Present);
  }

  /** Where `_rows` is after reading `i` captions: the full rows made so
      far and the row being filled. */
  ghost predicate Filling<T>(kept: seq<T>, i: nat, keyboard: seq<seq<T>>, row: seq<T>, cols: int)
    requires i <= |kept|
  {
    if cols <= 0 then keyboard == [] && row == kept[..i] else
      |row| < cols && |row| <= i && WholeRows(kept[..i - |row|], cols)
      && row == kept[i - |row|..i] && keyboard == Chunk(kept[..i - |row|], cols)
  }

  /** One more caption read: it joins the row, which closes when full. */
  lemma FillStep<T>(kept: seq<T>, i: nat, keyboard: seq<seq<T>>, row: seq<T>, cols: int)
    requires i < |kept| && Filling(kept, i, keyboard, row, cols)
    ensures |row + [kept[i]]| == cols ==> Filling(kept, i + 1, keyboard + [row + [kept[i]]], [], cols)
    ensures |row + [kept[i]]| != cols ==> Filling(kept, i + 1, keyboard, row + [kept[i]], cols)
  {
    var next := row + [kept[i]];
    if cols <= 0 {
      assert kept[..i + 1] == kept[..i] + [kept[i]];
    } else if |next| == cols {
      RowStep(kept, i, next, cols);
    } else {
      assert next == kept[i + 1 - |next|..i + 1];
    }
  }

  /** After the last caption, with rows of `cols`: the rows of `Chunk`. */
  lemma FillDone<T>(kept: seq<T>, keyboard: seq<seq<T>>, row: seq<T>, cols: int)
    requires cols >= 1 && Filling(kept, |kept|, keyboard, row, cols)
    ensures (if row != [] then keyboard + [row] else keyboard) == Chunk(kept, cols)
  {
    LastRow(kept, row, cols);
  }

  /** After the last caption: the rows of `_rows`. */
  lemma FillEnd(items: seq<string>, kept: seq<string>, keyboard: Keyboard, row: seq<string>, cols: int)
    requires kept == Filter(items, Present)
    requires Filling(kept, |kept|, keyboard, row, cols)
    ensures (if row != [] then keyboard + [row] else keyboard) == RowsOf(items, cols)
  {
    if cols > 0 {
      FillDone(kept, keyboard, row, cols);
    } else {
      assert kept[..|kept|] == kept;
    }
  }

  /** `_rows`: a loop that fills a row and starts a new one when it has
      `cols` captions. */
  method Rows(items: seq<string>, cols: int) returns (keyboard: Keyboard)
    ensures keyboard == RowsOf(items, cols)
  {
    var kept := Filter(items, Present);
    assert Filling(kept, 0, [], [], cols);
    keyboard := [];
    var row: seq<string> := [];
    for i := 0 to |kept|
      invariant Filling(kept, i, keyboard, row, cols)
    {
      FillStep(kept, i, keyboard, row, cols);
      row := row + [kept[i]];
      if |row| == cols {
        keyboard := keyboard + [row];
        row := [];
      }
    }
    FillEnd(items, kept, keyboard, row, cols);
    if row != [] {
      keyboard := keyboard + [row];
    }
  }

  /** The row left over at the end is the last row. */
  lemma LastRow<T>(kept: seq<T>, row: seq<T>, cols: nat)
    requires cols >= 1 && |row| < cols && |row| <= |kept|
    requires WholeRows(kept[..|kept| - |row|], cols) && row == kept[|kept| - |row|..|kept|]
    ensures Chunk(kept, cols) == Chunk(kept[..|kept| - |row|], cols) + (if row == [] then [] else [row])
  {
    assert kept[..|kept| - |row|] + row == kept;
    ChunkAppend(kept[..|kept| - |row|], row, cols);
    if row != [] {
      OneRow(row, cols);
    }
  }

  /** A row just filled: the rows so far gain it. */
  lemma RowStep<T>(kept: seq<T>, i: nat, row: seq<T>, cols: nat)
    requires cols >= 1 && i < |kept| && |row| == cols && cols <= i + 1
    requires row == kept[i + 1 - cols..i + 1]
    requires WholeRows(kept[..i + 1 - cols], cols)
    ensures WholeRows(kept[..i + 1], cols)
    ensures Chunk(kept[..i + 1], cols) == Chunk(kept[..i + 1 - cols], cols) + [row]
  {
    assert kept[..i + 1 - cols] + row == kept[..i + 1];
    WholeRowsAppend(kept[..i + 1 - cols], row, cols);
    ChunkAppend(kept[..i + 1 - cols], row, cols);
    OneRow(row, cols);
  }

  // ----- the menus ----------------------------------------------------------

  /** A list of captions laid out by `_rows` with fixed rows after it. */
  lemma WithFooter(items: seq<string>, cols: int, footer: Keyboard)
    requires forall i :: 0 <= i < |items| ==> items[i] != ""
    ensures Flatten(RowsOf(items, cols) + footer) == items + Flatten(footer)
    ensures forall i :: 0 <= i < |RowsOf(items, cols)| ==>
      (RowsOf(items, cols) + footer)[i] != [] && (cols >= 1 ==> |(RowsOf(items, cols) + footer)[i]| <= cols)
  {
    RowsOfPresent(items, cols);
    FlattenAppend(RowsOf(items, cols), footer);
  }

  /** The options the term menu offers for its flags, in order. */
  function TermOptions(hasSubjects: bool, hasSyllabus: bool, hasLinks: bool): seq<string> {
    (if hasSubjects then [ShowSubjects] else [])
    + (if hasSyllabus then [Plan] else [])
    + (if hasLinks then [Links] else [])
    + (if hasSubjects || hasSyllabus || hasLinks then [AdvSearch] else [])
  }

  /** Each option is offered exactly when its flag is set. */
  lemma TermOptionsIff(hasSubjects: bool, hasSyllabus: bool, hasLinks: bool)
    ensures var all := TermOptions(hasSubjects, hasSyllabus, hasLinks) + [Back, BackToLevels];
      (ShowSubjects in all <==> hasSubjects) && (Plan in all <==> hasSyllabus) && (Links in all <==> hasLinks)
      && (AdvSearch in all <==> hasSubjects || hasSyllabus || hasLinks)
    ensures forall i :: 0 <= i < |TermOptions(hasSubjects, hasSyllabus, hasLinks)| ==>
      TermOptions(hasSubjects, hasSyllabus, hasLinks)[i] != ""
  {
  }

  /** The term menu: each option appears exactly when its flag is set, the
      advanced search when any is, and the menu ends with the two back
      buttons. */
  method TermMenu(hasSubjects: bool, hasSyllabus: bool, hasLinks: bool) returns (kb: Keyboard)
    ensures |kb| >= 1 && kb[|kb| - 1] == [Back, BackToLevels]
    ensures forall i :: 0 <= i < |kb| - 1 ==> 1 <= |kb[i]| <= 2
    ensures ShowSubjects in Flatten(kb) <==> hasSubjects
    ensures Plan in Flatten(kb) <==> hasSyllabus
    ensures Links in Flatten(kb) <==> hasLinks
    ensures AdvSearch in Flatten(kb) <==> hasSubjects || hasSyllabus || hasLinks
  {
    var items: seq<string> := [];
    if hasSubjects {
      items := items + [ShowSubjects];
    }
    if hasSyllabus {
      items := items + [Plan];
    }
    if hasLinks {
      items := items + [Links];
    }
    if hasSubjects || hasSyllabus || hasLinks {
      items := items + [AdvSearch];
    }
    assert items == TermOptions(hasSubjects, hasSyllabus, hasLinks);
    var rows := Rows(items, 2);
    kb := rows + [[Back, BackToLevels]];
    TermOptionsIff(hasSubjects, hasSyllabus, hasLinks);
    WithFooter(items, 2, [[Back, BackToLevels]]);
    assert Flatten([[Back, BackToLevels]]) == [Back, BackToLevels];
  }

  /** The main menu: its four fixed rows, and the admins row exactly for
      an admin. */
  method MainMenu(isAdmin: bool) returns (kb: Keyboard)
    ensures |kb| == if isAdmin then 5 else 4
    ensures ManageAdmins in Flatten(kb) <==> isAdmin
    ensures isAdmin ==> kb[4] == [ManageAdmins]
  {
    kb := [
      ["📚 المستويات", "🗂 الخطة الدراسية"],
      ["🔧 البرامج الهندسية", " بحث"],
      ["📡 القنوات والمجموعات", "🆘 مساعدة"],
      ["📨 تواصل معنا"]
    ];
    var fixed := kb;
    if isAdmin {
      kb := kb + [[ManageAdmins]];
      FlattenAppend(fixed, [[ManageAdmins]]);
      assert Flatten([[ManageAdmins]]) == [ManageAdmins];
    }
    assert Flatten(fixed) == fixed[0] + fixed[1] + fixed[2] + fixed[3] by {
      assert fixed[1..][1..][1..][1..] == [];
    }
  }

  /** The caption of a section code, `""` for a code without one. */
  function SectionCaption(s: string): string {
    if s in SectionLabels then SectionLabels[s] else ""
  }

  predicate KnownSection(s: string) {
    s in SectionLabels
  }

  /** Some section of the list has caption `x`. */
  predicate SectionShown(sections: seq<string>, x: string) {
    exists s :: s in sections && KnownSection(s) && SectionCaption(s) == x
  }

  /** The subject's sections: the caption of every section that has one,
      in order, with a back button last; codes without a caption are
      dropped. */
  method SubjectSectionsMenu(sections: seq<string>) returns (kb: Keyboard)
    ensures |kb| >= 1 && kb[|kb| - 1] == [Back]
    ensures forall i :: 0 <= i < |kb| - 1 ==> 1 <= |kb[i]| <= 2
    ensures forall x :: x in Flatten(kb[..|kb| - 1]) <==> SectionShown(sections, x)
  {
    var labels := Map(Filter(sections, KnownSection), SectionCaption);
    var rows := Rows(labels, 2);
    kb := rows + [[Back]];
    assert kb[..|kb| - 1] == rows;
    SectionCaptions(sections);
    RowsOfPresent(labels, 2);
  }

  /** The captions of the known sections are all non-empty, and they are
      exactly the captions of the sections in the list. */
  lemma SectionCaptions(sections: seq<string>)
    ensures forall i :: 0 <= i < |Map(Filter(sections, KnownSection), SectionCaption)| ==>
      Map(Filter(sections, KnownSection), SectionCaption)[i] != ""
    ensures forall x :: x in Map(Filter(sections, KnownSection), SectionCaption) <==> SectionShown(sections, x)
  {
    SelectedMembers(sections, KnownSection, SectionCaption);
  }

  /** The section's filters: by year when years exist, by lecturer when
      lecturers exist (in one row), the lecture list when lectures exist,
      then the two fixed rows. */
  method SectionFiltersMenu(yearsExist: bool, lecturersExist: bool, lecturesExist: bool) returns (kb: Keyboard)
    ensures |kb| >= 2 && kb[|kb| - 2] == [Back, BackToSubjects] && kb[|kb| - 1] == [BackToLevels]
    ensures |kb| == 2 + (if yearsExist || lecturersExist then 1 else 0) + (if lecturesExist then 1 else 0)
    ensures FilterByYear in Flatten(kb) <==> yearsExist
    ensures FilterByLecturer in Flatten(kb) <==> lecturersExist
    ensures ListLectures in Flatten(kb) <==> lecturesExist
  {
    var first: seq<string> := [];
    if yearsExist {
      first := first + [FilterByYear];
    }
    if lecturersExist {
      first := first + [FilterByLecturer];
    }
    kb := [];
    if first != [] {
      kb := kb + [first];
    }
    if lecturesExist {
      kb := kb + [[ListLectures]];
    }
    var top := kb;
    kb := kb + [[Back, BackToSubjects], [BackToLevels]];
    FlattenAppend(top, [[Back, BackToSubjects], [BackToLevels]]);
    FlattenTwo([Back, BackToSubjects], [BackToLevels]);
    assert Flatten(top) == first + (if lecturesExist then [ListLectures] else []) by {
      FlattenOne(first);
      FlattenOne([ListLectures]);
      if first != [] && lecturesExist {
        FlattenTwo(first, [ListLectures]);
      }
    }
  }

  /** The lecturer's filters: the year choice when years exist and the
      lecture list when lectures exist, in one row, then back. */
  method LecturerFilterMenu(yearsExist: bool, lecturesExist: bool) returns (kb: Keyboard)
    ensures |kb| >= 1 && kb[|kb| - 1] == [Back]
    ensures |kb| == if yearsExist || lecturesExist then 2 else 1
    ensures ChooseYearForLecturer in Flatten(kb) <==> yearsExist
    ensures ListLecturesForLecturer in Flatten(kb) <==> lecturesExist
  {
    var row: seq<string> := [];
    if yearsExist {
      row := row + [ChooseYearForLecturer];
    }
    if lecturesExist {
      row := row + [ListLecturesForLecturer];
    }
    kb := [];
    if row != [] {
      kb := kb + [row];
    }
    var top := kb;
    kb := kb + [[Back]];
    FlattenAppend(top, [[Back]]);
    assert Flatten([[Back]]) == [Back];
  }

  /** `CATEGORY_TO_LABEL.get(c, c)`. */
  function CategoryCaption(c: string): string {
    if c in CategoryLabels then CategoryLabels[c] else c
  }

  /** No category caption is the lectures button. */
  lemma NoCaptionIsLectures()
    ensures YearMenuLectures !in CategoryLabels.Values
  {
  }

  /** The year's categories: the lectures button first when lectures
      exist, a caption for every category (its label, or the code itself
      when it has none; an empty code shows nothing), then the two fixed
      rows. */
  method YearCategoryMenu(categories: seq<string>, lecturesExist: bool) returns (kb: Keyboard)
    ensures |kb| >= 2 && kb[|kb| - 2] == [Back, BackToSubjects] && kb[|kb| - 1] == [BackToLevels]
    ensures lecturesExist ==> kb[0] == [YearMenuLectures]
    ensures YearMenuLectures in Flatten(kb) <==> lecturesExist || YearMenuLectures in categories
    ensures forall c :: c in categories && c in CategoryLabels ==> CategoryLabels[c] in Flatten(kb)
    ensures forall c :: c in categories && c !in CategoryLabels && c != "" ==> c in Flatten(kb)
    ensures forall i :: (if lecturesExist then 1 else 0) <= i < |kb| - 2 ==> 1 <= |kb[i]| <= 2
  {
    var labels := Map(categories, CategoryCaption);
    kb := [];
    if lecturesExist {
      kb := kb + [[YearMenuLectures]];
    }
    var head := kb;
    var rows := Rows(labels, 2);
    kb := kb + rows;
    var top := kb;
    kb := kb + [[Back, BackToSubjects], [BackToLevels]];
    YearCategoryFacts(categories, head, rows, lecturesExist);
    FlattenAppend(head, rows);
    FlattenAppend(top, [[Back, BackToSubjects], [BackToLevels]]);
    FlattenTwo([Back, BackToSubjects], [BackToLevels]);
  }

  lemma YearCategoryFacts(categories: seq<string>, head: Keyboard, rows: Keyboard, lecturesExist: bool)
    requires head == if lecturesExist then [[YearMenuLectures]] else []
    requires rows == RowsOf(Map(categories, CategoryCaption), 2)
    ensures YearMenuLectures in Flatten(head) + Flatten(rows) <==> lecturesExist || YearMenuLectures in categories
    ensures forall c :: c in categories && c in CategoryLabels ==> CategoryLabels[c] in Flatten(rows)
    ensures forall c :: c in categories && c !in CategoryLabels && c != "" ==> c in Flatten(rows)
    ensures forall i :: 0 <= i < |rows| ==> 1 <= |rows[i]| <= 2
  {
    LecturesButtonShown(categories, head, rows, lecturesExist);
    CategoryCaptionsShown(categories, rows);
  }

  /** The lectures button shows when lectures exist or a category of that
      very name does, and only then. */
  lemma LecturesButtonShown(categories: seq<string>, head: Keyboard, rows: Keyboard, lecturesExist: bool)
    requires head == if lecturesExist then [[YearMenuLectures]] else []
    requires rows == RowsOf(Map(categories, CategoryCaption), 2)
    ensures YearMenuLectures in Flatten(head) + Flatten(rows) <==> lecturesExist || YearMenuLectures in categories
  {
    var labels := Map(categories, CategoryCaption);
    RowsShape(labels, 2);
    MapMembers(categories, CategoryCaption);
    FlattenOne([YearMenuLectures]);
    NoCaptionIsLectures();
    if YearMenuLectures in labels {
      var c :| c in categories && CategoryCaption(c) == YearMenuLectures;
      assert c !in CategoryLabels;
    }
    if YearMenuLectures in categories {
      assert YearMenuLectures !in CategoryLabels;
      assert CategoryCaption(YearMenuLectures) in labels;
    }
  }

  /** Every category shows its caption, in rows of one or two. */
  lemma CategoryCaptionsShown(categories: seq<string>, rows: Keyboard)
    requires rows == RowsOf(Map(categories, CategoryCaption), 2)
    ensures forall c :: c in categories && c in CategoryLabels ==> CategoryLabels[c] in Flatten(rows)
    ensures forall c :: c in categories && c !in CategoryLabels && c != "" ==> c in Flatten(rows)
    ensures forall i :: 0 <= i < |rows| ==> 1 <= |rows[i]| <= 2
  {
    CaptionsShown(categories, CategoryCaption, rows);
    CategoryLabelsPresent();
  }

  /** No category caption is empty. */
  lemma CategoryLabelsPresent()
    ensures forall c :: c in CategoryLabels ==> CategoryLabels[c] != ""
  {
  }

  /** Items captioned by `f` and laid out two to a row: every non-empty
      caption is shown. */
  lemma CaptionsShown(items: seq<string>, f: string -> string, rows: Keyboard)
    requires rows == RowsOf(Map(items, f), 2)
    ensures forall c :: c in items && f(c) != "" ==> f(c) in Flatten(rows)
    ensures forall i :: 0 <= i < |rows| ==> 1 <= |rows[i]| <= 2
  {
    RowsShape(Map(items, f), 2);
    MapMembers(items, f);
    forall c | c in items && f(c) != "" ensures f(c) in Flatten(rows) {
      assert f(c) in Map(items, f);
    }
  }

  /** The exam models: mid-term exactly when it exists and final exactly
      when it exists, in one row, then back. */
  method ExamMenu(midExists: bool, finalExists: bool) returns (kb: Keyboard)
    ensures |kb| >= 1 && kb[|kb| - 1] == [Back]
    ensures MidExam in Flatten(kb) <==> midExists
    ensures FinalExam in Flatten(kb) <==> finalExists
  {
    var row: seq<string> := [];
    if midExists {
      row := row + [MidExam];
    }
    if finalExists {
      row := row + [FinalExam];
    }
    kb := [];
    if row != [] {
      kb := kb + [row];
    }
    var top := kb;
    kb := kb + [[Back]];
    FlattenAppend(top, [[Back]]);
    assert Flatten([[Back]]) == [Back];
  }
}
