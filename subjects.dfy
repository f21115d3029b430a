/** Levels, terms and subjects: get-or-create on names, the sections mode of
    a subject, and the navigation listings, which show only what has an
    available material. */
module Subjects {
  import opened Wrappers
  import opened Seqs
  import opened Materials

  datatype LevelRow = LevelRow(id: int, name: string)
  datatype TermRow = TermRow(id: int, name: string)
  datatype SubjectRow = SubjectRow(id: int, code: string, name: string, levelId: int, termId: int, sectionsMode: string)

  /** The `Subject` record `get_or_create` returns. */
  datatype Subject = Subject(id: int, name: string, levelId: int, termId: int, theoryOnly: bool)

  datatype SubjectError = LevelRequired

  // ----- lookups by name ------------------------------------------------------

  function LevelIdByName(levels: seq<LevelRow>, name: string): (r: Option<int>)
    ensures r.Some? <==> exists l :: l in levels && l.name == name
    ensures r.Some? ==> LevelRow(r.value, name) in levels
  {
    match First(levels, (l: LevelRow) => l.name == name)
    case None => None
    case Some(l) => Some(l.id)
  }

  function TermIdByName(terms: seq<TermRow>, name: string): (r: Option<int>)
    ensures r.Some? <==> exists t :: t in terms && t.name == name
    ensures r.Some? ==> TermRow(r.value, name) in terms
  {
    match First(terms, (t: TermRow) => t.name == name)
    case None => None
    case Some(t) => Some(t.id)
  }

  /** `get_subject_id_by_name(level, term, name)`. */
  function SubjectIdByName(subjects: seq<SubjectRow>, levelId: int, termId: int, name: string): (r: Option<int>)
    ensures r.Some? <==> exists s :: s in subjects && s.levelId == levelId && s.termId == termId && s.name == name
    ensures r.Some? ==> exists s :: s in subjects && s.id == r.value && s.levelId == levelId && s.termId == termId && s.name == name
  {
    match First(subjects, (s: SubjectRow) => s.levelId == levelId && s.termId == termId && s.name == name)
    case None => None
    case Some(s) => Some(s.id)
  }

  /** The row `get_or_create` selects: `WHERE term_id=? AND name=?`. */
  function SubjectByTermAndName(subjects: seq<SubjectRow>, termId: int, name: string): (r: Option<SubjectRow>)
    ensures r.Some? ==> r.value in subjects && r.value.termId == termId && r.value.name == name
    ensures r.None? <==> forall s :: s in subjects ==> !(s.termId == termId && s.name == name)
  {
    First(subjects, (s: SubjectRow) => s.termId == termId && s.name == name)
  }

  /** The mode `set_theory_only` writes. */
  function ModeFor(theoryOnly: bool): (mode: string)
    ensures (mode == "theory_only") <==> theoryOnly
  {
    if theoryOnly then "theory_only" else "theory_discussion_lab"
  }

  function SubjectOf(row: SubjectRow): Subject {
    Subject(row.id, row.name, row.levelId, row.termId, row.sectionsMode == "theory_only")
  }

  // ----- listings over the materials -----------------------------------------

  /** The subject has a material that can be served. */
  predicate SubjectHasMaterial(materials: seq<MaterialRow>, subjectId: int) {
    exists x :: x in materials && x.m.subjectId == subjectId && Available(x.m)
  }

  /** `get_levels`: the levels one of whose subjects has an available
      material, by id. */
  function GetLevels(levels: seq<LevelRow>, subjects: seq<SubjectRow>, materials: seq<MaterialRow>): (r: seq<LevelRow>)
    ensures SortedBy(r, (l: LevelRow) => l.id)
    ensures forall l :: l in r <==> l in levels && exists s :: s in subjects && s.levelId == l.id && SubjectHasMaterial(materials, s.id)
  {
    var p := (l: LevelRow) => exists s :: s in subjects && s.levelId == l.id && SubjectHasMaterial(materials, s.id);
    SortByMembers(Filter(levels, p), (l: LevelRow) => l.id);
    SortBy(Filter(levels, p), (l: LevelRow) => l.id)
  }

  /** `get_terms_by_level(level)`: the terms holding a subject of that level
      with an available material, by id. */
  function GetTermsByLevel(terms: seq<TermRow>, subjects: seq<SubjectRow>, materials: seq<MaterialRow>, levelId: int)
    : (r: seq<TermRow>)
    ensures SortedBy(r, (t: TermRow) => t.id)
    ensures forall t :: t in r <==>
      t in terms && exists s :: s in subjects && s.termId == t.id && s.levelId == levelId && SubjectHasMaterial(materials, s.id)
  {
    var p := (t: TermRow) => exists s :: s in subjects && s.termId == t.id && s.levelId == levelId && SubjectHasMaterial(materials, s.id);
    SortByMembers(Filter(terms, p), (t: TermRow) => t.id);
    SortBy(Filter(terms, p), (t: TermRow) => t.id)
  }

  /** The subjects of a level and term with an available material. */
  predicate Listed(materials: seq<MaterialRow>, levelId: int, termId: int, s: SubjectRow) {
    s.levelId == levelId && s.termId == termId && SubjectHasMaterial(materials, s.id)
  }

  /** `get_subjects_by_level_and_term(level, term)`: `(id, name)` of the
      subjects of that level and term with an available material, by id. */
  function GetSubjectsByLevelAndTerm(subjects: seq<SubjectRow>, materials: seq<MaterialRow>, levelId: int, termId: int)
    : (r: seq<(int, string)>)
    ensures SortedBy(r, (p: (int, string)) => p.0)
    ensures forall p :: p in r <==> exists s :: s in subjects && Listed(materials, levelId, termId, s) && p == (s.id, s.name)
  {
    ListedPairs(subjects, materials, levelId, termId);
    Map(SortBy(Filter(subjects, (s: SubjectRow) => Listed(materials, levelId, termId, s)), (s: SubjectRow) => s.id),
        (s: SubjectRow) => (s.id, s.name))
  }

  lemma ListedPairs(subjects: seq<SubjectRow>, materials: seq<MaterialRow>, levelId: int, termId: int)
    ensures var r := Map(SortBy(Filter(subjects, (s: SubjectRow) => Listed(materials, levelId, termId, s)), (s: SubjectRow) => s.id),
                         (s: SubjectRow) => (s.id, s.name));
      SortedBy(r, (p: (int, string)) => p.0)
      && forall p :: p in r <==> exists s :: s in subjects && Listed(materials, levelId, termId, s) && p == (s.id, s.name)
  {
    ListedPairsSorted(subjects, materials, levelId, termId);
    ListedPairsMembers(subjects, materials, levelId, termId);
  }

  lemma ListedPairsSorted(subjects: seq<SubjectRow>, materials: seq<MaterialRow>, levelId: int, termId: int)
    ensures var r := Map(SortBy(Filter(subjects, (s: SubjectRow) => Listed(materials, levelId, termId, s)), (s: SubjectRow) => s.id),
                         (s: SubjectRow) => (s.id, s.name));
      SortedBy(r, (p: (int, string)) => p.0)
  {
    var sel := (s: SubjectRow) => Listed(materials, levelId, termId, s);
    MapSorted(SortBy(Filter(subjects, sel), (s: SubjectRow) => s.id), (s: SubjectRow) => s.id,
              (s: SubjectRow) => (s.id, s.name), (p: (int, string)) => p.0);
  }

  lemma ListedPairsMembers(subjects: seq<SubjectRow>, materials: seq<MaterialRow>, levelId: int, termId: int)
    ensures var r := Map(SortBy(Filter(subjects, (s: SubjectRow) => Listed(materials, levelId, termId, s)), (s: SubjectRow) => s.id),
                         (s: SubjectRow) => (s.id, s.name));
      forall p :: p in r <==> exists s :: s in subjects && Listed(materials, levelId, termId, s) && p == (s.id, s.name)
  {
    var sel := (s: SubjectRow) => Listed(materials, levelId, termId, s);
    var pair := (s: SubjectRow) => (s.id, s.name);
    var rows := SortBy(Filter(subjects, sel), (s: SubjectRow) => s.id);
    SortByMembers(Filter(subjects, sel), (s: SubjectRow) => s.id);
    MapMembers(rows, pair);
    forall p ensures p in Map(rows, pair) <==> exists s :: s in subjects && Listed(materials, levelId, termId, s) && p == (s.id, s.name) {
      if p in Map(rows, pair) {
        var s :| s in rows && pair(s) == p;
        assert s in Filter(subjects, sel);
      }
      if exists s :: s in subjects && Listed(materials, levelId, termId, s) && p == (s.id, s.name) {
        var s :| s in subjects && Listed(materials, levelId, termId, s) && p == (s.id, s.name);
        assert s in rows;
      }
    }
  }

  /** `count_subjects(level, term)`: the number of distinct listed subjects. */
  function CountSubjects(subjects: seq<SubjectRow>, materials: seq<MaterialRow>, levelId: int, termId: int): (n: nat)
    ensures n == |Filter(subjects, (s: SubjectRow) => Listed(materials, levelId, termId, s))|
  {
    |GetSubjectsByLevelAndTerm(subjects, materials, levelId, termId)|
  }

  /** The flags `term_feature_flags` returns. */
  datatype TermFlags = TermFlags(hasSubjects: bool, hasSyllabus: bool, hasLinks: bool)

  /** An available material of a subject of that level and term whose
      legacy text column satisfies `p`. */
  predicate TermHasMaterial(subjects: seq<SubjectRow>, materials: seq<MaterialRow>, levelId: int, termId: int,
                            p: Material -> bool) {
    exists x, s :: x in materials && s in subjects && s.id == x.m.subjectId && s.levelId == levelId && s.termId == termId
      && p(x.m) && Available(x.m)
  }

  /** `term_feature_flags(level, term)`. */
  function TermFeatureFlags(subjects: seq<SubjectRow>, materials: seq<MaterialRow>, levelId: int, termId: int)
    : (r: TermFlags)
    ensures r.hasSubjects <==> exists s :: s in subjects && Listed(materials, levelId, termId, s)
    ensures r.hasSyllabus <==> TermHasMaterial(subjects, materials, levelId, termId, (m: Material) => m.section == Some("syllabus"))
    ensures r.hasLinks <==> TermHasMaterial(subjects, materials, levelId, termId, (m: Material) => m.category == Some("external_link"))
  {
    var sel := (s: SubjectRow) => Listed(materials, levelId, termId, s);
    assert (exists s :: s in subjects && sel(s)) ==> |Filter(subjects, sel)| > 0;
    TermFlags(
      CountSubjects(subjects, materials, levelId, termId) > 0,
      TermHasMaterial(subjects, materials, levelId, termId, (m: Material) => m.section == Some("syllabus")),
      TermHasMaterial(subjects, materials, levelId, termId, (m: Material) => m.category == Some("external_link")))
  }

  /** The sections `get_available_sections_for_subject` admits. */
  predicate KnownSection(s: string) {
    s == "theory" || s == "discussion" || s == "lab" || s == "field_trip"
  }

  /** `get_available_sections_for_subject(subject)`: the distinct legacy
      section names of its available materials, among theory, discussion,
      lab and field trip, in the order they first occur. */
  function GetAvailableSectionsForSubject(materials: seq<MaterialRow>, subjectId: int): (r: seq<string>)
    ensures forall i :: 0 <= i < |r| ==> KnownSection(r[i])
    ensures forall i, j :: 0 <= i < j < |r| ==> r[i] != r[j]
    ensures forall sec :: sec in r <==>
      exists x :: x in materials && x.m.subjectId == subjectId && x.m.section == Some(sec) && KnownSection(sec) && Available(x.m)
  {
    var p := (x: MaterialRow) => x.m.subjectId == subjectId && x.m.section.Some? && KnownSection(x.m.section.value) && Available(x.m);
    var kept := Filter(materials, p);
    var names := Map(kept, (x: MaterialRow) => x.m.section.GetOr(""));
    MapMembers(kept, (x: MaterialRow) => x.m.section.GetOr(""));
    assert forall y :: y in names ==> KnownSection(y) by {
      forall y | y in names ensures KnownSection(y) {
        var i :| 0 <= i < |names| && names[i] == y;
        assert kept[i] in kept;
      }
    }
    var r := Distinct(names);
    assert forall i :: 0 <= i < |r| ==> r[i] in names;
    r
  }

  // ----- the tables -----------------------------------------------------------

  class SubjectStore {
    var levels: seq<LevelRow>
    var terms: seq<TermRow>
    var subjects: seq<SubjectRow>
    var nextLevelId: int
    var nextTermId: int
    var nextSubjectId: int

    /** Ids are primary keys below their table's next id (each table has
        its own `AUTOINCREMENT` sequence); level and term names are unique,
        as `INSERT OR IGNORE` relies on. */
    ghost predicate Valid() reads this {
      KeysDistinct(levels, (l: LevelRow) => l.id) && KeysDistinct(levels, (l: LevelRow) => l.name)
      && KeysDistinct(terms, (t: TermRow) => t.id) && KeysDistinct(terms, (t: TermRow) => t.name)
      && KeysDistinct(subjects, (s: SubjectRow) => s.id)
      && (forall l :: l in levels ==> l.id < nextLevelId) && (forall t :: t in terms ==> t.id < nextTermId)
      && (forall s :: s in subjects ==> s.id < nextSubjectId)
    }

    constructor ()
      ensures Valid() && levels == [] && terms == [] && subjects == []
    {
      levels, terms, subjects := [], [], [];
      nextLevelId, nextTermId, nextSubjectId := 1, 1, 1;
    }

    /** `insert_level(name)`: `INSERT OR IGNORE`, so a name already there
        leaves the table alone. */
    method InsertLevel(name: string)
      requires Valid()
      modifies this
      ensures Valid() && terms == old(terms) && subjects == old(subjects)
      ensures nextTermId == old(nextTermId) && nextSubjectId == old(nextSubjectId)
      ensures old(LevelIdByName(levels, name)).Some? ==> levels == old(levels) && nextLevelId == old(nextLevelId)
      ensures old(LevelIdByName(levels, name)).None? ==>
        levels == old(levels) + [LevelRow(old(nextLevelId), name)] && nextLevelId == old(nextLevelId) + 1
      ensures LevelIdByName(levels, name).Some?
    {
      if LevelIdByName(levels, name).None? {
        levels := levels + [LevelRow(nextLevelId, name)];
        assert LevelRow(nextLevelId, name) in levels;
        nextLevelId := nextLevelId + 1;
      }
    }

    /** `insert_term(name)`, likewise. */
    method InsertTerm(name: string)
      requires Valid()
      modifies this
      ensures Valid() && levels == old(levels) && subjects == old(subjects)
      ensures nextLevelId == old(nextLevelId) && nextSubjectId == old(nextSubjectId)
      ensures old(TermIdByName(terms, name)).Some? ==> terms == old(terms) && nextTermId == old(nextTermId)
      ensures old(TermIdByName(terms, name)).None? ==>
        terms == old(terms) + [TermRow(old(nextTermId), name)] && nextTermId == old(nextTermId) + 1
      ensures TermIdByName(terms, name).Some?
    {
      if TermIdByName(terms, name).None? {
        terms := terms + [TermRow(nextTermId, name)];
        assert TermRow(nextTermId, name) in terms;
        nextTermId := nextTermId + 1;
      }
    }

    /** `get_or_create_level(name)`: the existing id, otherwise the id the
        insert gave; the name then reads back as that id. */
    method GetOrCreateLevel(name: string) returns (id: int)
      requires Valid()
      modifies this
      ensures Valid() && terms == old(terms) && subjects == old(subjects)
      ensures nextTermId == old(nextTermId) && nextSubjectId == old(nextSubjectId)
      ensures old(LevelIdByName(levels, name)).Some? ==> id == old(LevelIdByName(levels, name)).value && levels == old(levels)
      ensures old(LevelIdByName(levels, name)).None? ==> levels == old(levels) + [LevelRow(id, name)]
      ensures LevelIdByName(levels, name) == Some(id)
    {
      var existing := LevelIdByName(levels, name);
      if existing.Some? {
        return existing.value;
      }
      InsertLevel(name);
      FirstAppend(old(levels), LevelRow(old(nextLevelId), name), (l: LevelRow) => l.name == name);
      id := LevelIdByName(levels, name).value;
    }

    /** `get_or_create_term(name)`. */
    method GetOrCreateTerm(name: string) returns (id: int)
      requires Valid()
      modifies this
      ensures Valid() && levels == old(levels) && subjects == old(subjects)
      ensures nextLevelId == old(nextLevelId) && nextSubjectId == old(nextSubjectId)
      ensures old(TermIdByName(terms, name)).Some? ==> id == old(TermIdByName(terms, name)).value && terms == old(terms)
      ensures old(TermIdByName(terms, name)).None? ==> terms == old(terms) + [TermRow(id, name)]
      ensures TermIdByName(terms, name) == Some(id)
    {
      var existing := TermIdByName(terms, name);
      if existing.Some? {
        return existing.value;
      }
      InsertTerm(name);
      FirstAppend(old(terms), TermRow(old(nextTermId), name), (t: TermRow) => t.name == name);
      id := TermIdByName(terms, name).value;
    }

    /** `insert_subject(code, name, level, term, mode)`. */
    method InsertSubject(code: string, name: string, levelId: int, termId: int, mode: string)
      requires Valid()
      modifies this
      ensures Valid() && levels == old(levels) && terms == old(terms)
      ensures nextLevelId == old(nextLevelId) && nextTermId == old(nextTermId)
      ensures subjects == old(subjects) + [SubjectRow(old(nextSubjectId), code, name, levelId, termId, mode)]
      ensures nextSubjectId == old(nextSubjectId) + 1
    {
      subjects := subjects + [SubjectRow(nextSubjectId, code, name, levelId, termId, mode)];
      nextSubjectId := nextSubjectId + 1;
    }

    /** `get_or_create(term, name, level)`: the subject of that term and name;
        when there is none, an error without a level, else a new subject
        with code `AUTO` and mode `theory_only`. */
    method GetOrCreate(termId: int, name: string, levelId: Option<int>) returns (r: Result<Subject, SubjectError>)
      requires Valid()
      modifies this
      ensures Valid() && levels == old(levels) && terms == old(terms)
      ensures nextLevelId == old(nextLevelId) && nextTermId == old(nextTermId)
      ensures subjects == old(subjects) ==> nextSubjectId == old(nextSubjectId)
      ensures old(SubjectByTermAndName(subjects, termId, name)).Some? ==>
        subjects == old(subjects) && r == Ok(SubjectOf(old(SubjectByTermAndName(subjects, termId, name)).value))
      ensures old(SubjectByTermAndName(subjects, termId, name)).None? && levelId.None? ==>
        subjects == old(subjects) && r == Err(LevelRequired)
      ensures old(SubjectByTermAndName(subjects, termId, name)).None? && levelId.Some? ==>
        subjects == old(subjects) + [SubjectRow(old(nextSubjectId), "AUTO", name, levelId.value, termId, "theory_only")]
        && r == Ok(Subject(old(nextSubjectId), name, levelId.value, termId, true))
    {
      var row := SubjectByTermAndName(subjects, termId, name);
      if row.None? {
        if levelId.None? {
          return Err(LevelRequired);
        }
        var newRow := SubjectRow(nextSubjectId, "AUTO", name, levelId.value, termId, "theory_only");
        FirstAppend(subjects, newRow, (s: SubjectRow) => s.termId == termId && s.name == name);
        InsertSubject("AUTO", name, levelId.value, termId, "theory_only");
        row := SubjectByTermAndName(subjects, termId, name);
      }
      r := Ok(SubjectOf(row.value));
    }

    /** `set_theory_only(subject, value)` (and `update_subject_mode`): the
        sections mode of that subject alone becomes `theory_only` or
        `theory_discussion_lab`. */
    method SetTheoryOnly(subjectId: int, value: bool)
      requires Valid()
      modifies this
      ensures Valid() && levels == old(levels) && terms == old(terms)
      ensures nextLevelId == old(nextLevelId) && nextTermId == old(nextTermId) && nextSubjectId == old(nextSubjectId)
      ensures |subjects| == |old(subjects)|
      ensures forall i :: 0 <= i < |subjects| ==>
        subjects[i] == (if old(subjects)[i].id == subjectId then old(subjects)[i].(sectionsMode := ModeFor(value)) else old(subjects)[i])
    {
      var mode := ModeFor(value);
      var updated := Map(subjects, (s: SubjectRow) => if s.id == subjectId then s.(sectionsMode := mode) else s);
      KeysDistinctRewrite(subjects, updated, (s: SubjectRow) => s.id);
      forall s | s in updated ensures s.id < nextSubjectId {
        var i :| 0 <= i < |updated| && updated[i] == s;
        assert subjects[i] in subjects;
      }
      subjects := updated;
    }
  }

  /** Get-or-create is idempotent: once the level exists, asking again
      returns the same id and inserts nothing. */
  lemma {:induction false} GetOrCreateLevelIdempotent(levels: seq<LevelRow>, row: LevelRow)
    requires LevelIdByName(levels, row.name).None?
    ensures LevelIdByName(levels + [row], row.name) == Some(row.id)
  {
    FirstAppend(levels, row, (l: LevelRow) => l.name == row.name);
  }

  /** A subject's theory-only flag reads back what `set_theory_only` wrote. */
  lemma TheoryOnlyReadBack(row: SubjectRow, value: bool)
    ensures SubjectOf(row.(sectionsMode := ModeFor(value))).theoryOnly == value
  {
  }
}
