/** The hashtag alias and mapping tables: an alias (`#video`) has a
    normalised form and at most one mapping to a target (a card, a section, a
    subject, an item type). */
module HashtagRepo {
  import opened Wrappers
  import opened Text
  import opened Seqs

  /** A row of `hashtag_aliases`. */
  datatype AliasRow = AliasRow(id: int, alias: string, normalized: Option<string>, lang: Option<string>)

  /** A row of `hashtag_mappings`; `aliasId` is NULL-able. */
  datatype MappingRow = MappingRow(id: int, aliasId: Option<int>, targetKind: string, targetId: int,
                                   isContentTag: bool, overrides: Option<string>)

  /** A row of `get_mappings_for_alias`: the mapping with its alias text. */
  datatype MappingView = MappingView(id: int, alias: string, targetKind: string, targetId: int,
                                     isContentTag: bool, overrides: Option<string>)

  datatype RepoError = ConstraintError

  /** The columns `update_alias` may be given; `None` leaves a column alone. */
  datatype AliasPatch = AliasPatch(alias: Option<string>, normalized: Option<Option<string>>, lang: Option<Option<string>>) {
    predicate IsEmpty() { alias.None? && normalized.None? && lang.None? }
  }

  /** `normalized COLLATE NOCASE`: equal once ASCII letters are folded. */
  predicate SameNormalized(a: Option<string>, b: Option<string>) {
    a.Some? && b.Some? && LowerAscii(a.value) == LowerAscii(b.value)
  }

  /** The table's constraints: ids, alias texts and folded normalised forms are
      unique, and ids are below the next id to hand out. */
  ghost predicate AliasesValid(aliases: seq<AliasRow>, nextId: int) {
    (forall i :: 0 <= i < |aliases| ==> aliases[i].id < nextId)
    && (forall i, j :: 0 <= i < j < |aliases| ==>
          aliases[i].id != aliases[j].id && aliases[i].alias != aliases[j].alias
          && !SameNormalized(aliases[i].normalized, aliases[j].normalized))
  }

  /** Mapping ids are unique, and no two mappings share an alias id. */
  ghost predicate MappingsValid(mappings: seq<MappingRow>, nextId: int) {
    (forall i :: 0 <= i < |mappings| ==> mappings[i].id < nextId)
    && (forall i, j :: 0 <= i < j < |mappings| ==>
          mappings[i].id != mappings[j].id
          && (mappings[i].aliasId.Some? ==> mappings[i].aliasId != mappings[j].aliasId))
  }

  /** `get_alias`: the row whose alias text is exactly `alias`. */
  function GetAlias(aliases: seq<AliasRow>, alias: string): (r: Option<AliasRow>)
    ensures r.Some? ==> r.value in aliases && r.value.alias == alias
    ensures r.None? ==> forall a :: a in aliases ==> a.alias != alias
  {
    if aliases == [] then None
    else if aliases[0].alias == alias then Some(aliases[0])
    else GetAlias(aliases[1..], alias)
  }

  /** The alias row with id `id`. */
  function AliasById(aliases: seq<AliasRow>, id: int): (r: Option<AliasRow>)
    ensures r.Some? ==> r.value in aliases && r.value.id == id
    ensures r.None? ==> forall a :: a in aliases ==> a.id != id
  {
    if aliases == [] then None
    else if aliases[0].id == id then Some(aliases[0])
    else AliasById(aliases[1..], id)
  }

  /** Whether mapping `m` joins an alias row whose text is `alias`. */
  predicate JoinsAlias(aliases: seq<AliasRow>, m: MappingRow, alias: string) {
    m.aliasId.Some? && exists a :: a in aliases && a.id == m.aliasId.value && a.alias == alias
  }

  /** `get_mappings_for_alias`: the mappings joined to the alias row of that
      text, in table order. */
  function GetMappingsForAlias(aliases: seq<AliasRow>, mappings: seq<MappingRow>, alias: string): (r: seq<MappingView>)
    ensures |r| <= |mappings|
    ensures forall v :: v in r ==> v.alias == alias
    ensures forall v :: v in r <==> exists m :: m in mappings && JoinsAlias(aliases, m, alias) && v == View(m, alias)
  {
    if mappings == [] then []
    else
      var m := mappings[0];
      var rest := GetMappingsForAlias(aliases, mappings[1..], alias);
      assert forall x :: x in mappings <==> x == m || x in mappings[1..];
      if JoinsAlias(aliases, m, alias) then [View(m, alias)] + rest else rest
  }

  function View(m: MappingRow, alias: string): MappingView {
    MappingView(m.id, alias, m.targetKind, m.targetId, m.isContentTag, m.overrides)
  }

  /** `lookup_targets`: `(target_kind, target_id)` of each mapping of the
      alias, in the same order. */
  function LookupTargets(aliases: seq<AliasRow>, mappings: seq<MappingRow>, alias: string): (r: seq<(string, int)>)
    ensures |r| == |GetMappingsForAlias(aliases, mappings, alias)|
    ensures forall i :: 0 <= i < |r| ==>
      r[i] == (GetMappingsForAlias(aliases, mappings, alias)[i].targetKind, GetMappingsForAlias(aliases, mappings, alias)[i].targetId)
  {
    var rows := GetMappingsForAlias(aliases, mappings, alias);
    seq(|rows|, i requires 0 <= i < |rows| => (rows[i].targetKind, rows[i].targetId))
  }

  /** With the table constraints in force an alias has at most one mapping, so
      `lookup_targets` yields at most one pair. */
  lemma AtMostOneMapping(aliases: seq<AliasRow>, na: int, mappings: seq<MappingRow>, nm: int, alias: string)
    requires AliasesValid(aliases, na) && MappingsValid(mappings, nm)
    ensures |GetMappingsForAlias(aliases, mappings, alias)| <= 1
  {
    var r := GetMappingsForAlias(aliases, mappings, alias);
    if |r| > 1 {
      var i := IndexOfView(aliases, mappings, alias, r[0]);
      var j := IndexOfView(aliases, mappings, alias, r[1]);
      var ai :| ai in aliases && ai.id == mappings[i].aliasId.value && ai.alias == alias;
      var aj :| aj in aliases && aj.id == mappings[j].aliasId.value && aj.alias == alias;
      AliasTextKey(aliases, na, ai, aj);
      assert !(i < j) && !(j < i);
      ViewsDistinct(aliases, mappings, alias);
      assert false;
    }
  }

  lemma AliasTextKey(aliases: seq<AliasRow>, na: int, a: AliasRow, b: AliasRow)
    requires AliasesValid(aliases, na) && a in aliases && b in aliases && a.alias == b.alias
    ensures a == b
  {
    KeyIdentifies(aliases, (x: AliasRow) => x.alias, a, b);
  }

  /** The mapping a view of `get_mappings_for_alias` comes from. */
  lemma IndexOfView(aliases: seq<AliasRow>, mappings: seq<MappingRow>, alias: string, v: MappingView) returns (i: nat)
    requires v in GetMappingsForAlias(aliases, mappings, alias)
    ensures i < |mappings| && JoinsAlias(aliases, mappings[i], alias) && v == View(mappings[i], alias)
  {
    var m :| m in mappings && JoinsAlias(aliases, m, alias) && v == View(m, alias);
    i :| 0 <= i < |mappings| && mappings[i] == m;
  }

  /** When mapping ids are unique, the result has no repeated row. */
  lemma {:induction false} ViewsDistinct(aliases: seq<AliasRow>, mappings: seq<MappingRow>, alias: string)
    requires forall i, j :: 0 <= i < j < |mappings| ==> mappings[i].id != mappings[j].id
    ensures forall i, j :: 0 <= i < j < |GetMappingsForAlias(aliases, mappings, alias)| ==>
      GetMappingsForAlias(aliases, mappings, alias)[i] != GetMappingsForAlias(aliases, mappings, alias)[j]
  {
    if mappings != [] {
      ViewsDistinct(aliases, mappings[1..], alias);
      var rest := GetMappingsForAlias(aliases, mappings[1..], alias);
      forall v | v in rest ensures v.id != mappings[0].id {
        var k := IndexOfView(aliases, mappings[1..], alias, v);
        assert mappings[1..][k] == mappings[k + 1];
      }
    }
  }

  /** Whether inserting an alias with this text and normalised form would
      violate a unique index. */
  predicate AliasClash(aliases: seq<AliasRow>, alias: string, normalized: Option<string>, except: Option<int>) {
    exists a :: a in aliases && Some(a.id) != except && (a.alias == alias || SameNormalized(a.normalized, normalized))
  }

  function Patched(a: AliasRow, p: AliasPatch): AliasRow {
    AliasRow(a.id, p.alias.GetOr(a.alias), p.normalized.GetOr(a.normalized), p.lang.GetOr(a.lang))
  }

  function PatchRows(aliases: seq<AliasRow>, id: int, p: AliasPatch): (r: seq<AliasRow>)
    ensures |r| == |aliases|
    ensures forall i :: 0 <= i < |r| ==> r[i] == if aliases[i].id == id then Patched(aliases[i], p) else aliases[i]
  {
    seq(|aliases|, i requires 0 <= i < |aliases| => if aliases[i].id == id then Patched(aliases[i], p) else aliases[i])
  }

  class HashtagStore {
    var aliases: seq<AliasRow>
    var mappings: seq<MappingRow>
    var nextAliasId: int
    var nextMappingId: int

    ghost predicate Valid() reads this {
      AliasesValid(aliases, nextAliasId) && MappingsValid(mappings, nextMappingId)
    }

    constructor ()
      ensures Valid() && aliases == [] && mappings == []
    {
      aliases, mappings := [], [];
      nextAliasId, nextMappingId := 1, 1;
    }

    /** `create_alias`: a fresh id, or a constraint error when the text or the
        folded normalised form is taken. */
    method CreateAlias(alias: string, normalized: Option<string>, lang: Option<string>) returns (r: Result<int, RepoError>)
      requires Valid()
      modifies this
      ensures Valid() && mappings == old(mappings)
      ensures r.Ok? <==> !AliasClash(old(aliases), alias, normalized, None)
      ensures r.Ok? ==> aliases == old(aliases) + [AliasRow(r.value, alias, normalized, lang)]
                        && forall a :: a in old(aliases) ==> a.id != r.value
      ensures r.Ok? ==> GetAlias(aliases, alias) == Some(AliasRow(r.value, alias, normalized, lang))
      ensures r.Err? ==> aliases == old(aliases)
    {
      if exists a :: a in aliases && (a.alias == alias || SameNormalized(a.normalized, normalized)) {
        return Err(ConstraintError);
      }
      var row := AliasRow(nextAliasId, alias, normalized, lang);
      GetAliasAppend(aliases, row);
      aliases := aliases + [row];
      r := Ok(nextAliasId);
      nextAliasId := nextAliasId + 1;
    }

    /** `update_alias`: no fields leaves the table alone; otherwise the named
        columns of the row with that id change, unless that would violate a
        unique index. */
    method UpdateAlias(id: int, patch: AliasPatch) returns (r: Result<(), RepoError>)
      requires Valid()
      modifies this
      ensures Valid() && mappings == old(mappings)
      ensures patch.IsEmpty() ==> r.Ok? && aliases == old(aliases)
      ensures r.Ok? && !patch.IsEmpty() ==> aliases == PatchRows(old(aliases), id, patch)
      ensures r.Err? ==> aliases == old(aliases)
    {
      if patch.IsEmpty() {
        return Ok(());
      }
      var target := AliasById(aliases, id);
      if target.None? {
        assert PatchRows(aliases, id, patch) == aliases;
        return Ok(());
      }
      var row := Patched(target.value, patch);
      if AliasClash(aliases, row.alias, row.normalized, Some(id)) {
        return Err(ConstraintError);
      }
      var updated := PatchRows(aliases, id, patch);
      forall i, j | 0 <= i < j < |updated|
        ensures updated[i].id != updated[j].id && updated[i].alias != updated[j].alias
                && !SameNormalized(updated[i].normalized, updated[j].normalized)
      {
        if aliases[i].id == id {
          assert aliases[i] == target.value by { AliasIdKey(aliases, nextAliasId, aliases[i], target.value); }
          assert aliases[j] in aliases && aliases[j].id != id;
        } else if aliases[j].id == id {
          assert aliases[j] == target.value by { AliasIdKey(aliases, nextAliasId, aliases[j], target.value); }
          assert aliases[i] in aliases && aliases[i].id != id;
        }
      }
      aliases := updated;
      r := Ok(());
    }

    /** `delete_alias`: the row with that id is gone, and `get_alias` no longer
        finds its text. */
    method DeleteAlias(id: int)
      requires Valid()
      modifies this
      ensures Valid() && mappings == old(mappings)
      ensures aliases == Filter(old(aliases), (a: AliasRow) => a.id != id)
      ensures forall a :: a in old(aliases) && a.id == id ==> GetAlias(aliases, a.alias).None?
    {
      var kept := Filter(aliases, (a: AliasRow) => a.id != id);
      FilterPairwise(aliases, (a: AliasRow) => a.id != id, (a: AliasRow, b: AliasRow) =>
        a.id != b.id && a.alias != b.alias && !SameNormalized(a.normalized, b.normalized));
      forall a | a in aliases && a.id == id ensures GetAlias(kept, a.alias).None? {
        forall b | b in kept ensures b.alias != a.alias {
          if b.alias == a.alias { AliasTextKey(aliases, nextAliasId, a, b); }
        }
      }
      aliases := kept;
    }

    /** `create_mapping`: a fresh id, or a constraint error when the alias id
        already has a mapping. */
    method CreateMapping(aliasId: Option<int>, targetKind: string, targetId: int, isContentTag: bool, overrides: Option<string>)
      returns (r: Result<int, RepoError>)
      requires Valid()
      modifies this
      ensures Valid() && aliases == old(aliases)
      ensures r.Ok? <==> !(aliasId.Some? && exists m :: m in old(mappings) && m.aliasId == aliasId)
      ensures r.Ok? ==> mappings == old(mappings) + [MappingRow(r.value, aliasId, targetKind, targetId, isContentTag, overrides)]
      ensures r.Err? ==> mappings == old(mappings)
    {
      if aliasId.Some? && exists m :: m in mappings && m.aliasId == aliasId {
        return Err(ConstraintError);
      }
      mappings := mappings + [MappingRow(nextMappingId, aliasId, targetKind, targetId, isContentTag, overrides)];
      r := Ok(nextMappingId);
      nextMappingId := nextMappingId + 1;
    }
  }

  lemma AliasIdKey(aliases: seq<AliasRow>, na: int, a: AliasRow, b: AliasRow)
    requires AliasesValid(aliases, na) && a in aliases && b in aliases && a.id == b.id
    ensures a == b
  {
    KeyIdentifies(aliases, (x: AliasRow) => x.id, a, b);
  }

  lemma {:induction false} GetAliasAppend(aliases: seq<AliasRow>, row: AliasRow)
    requires forall a :: a in aliases ==> a.alias != row.alias
    ensures GetAlias(aliases + [row], row.alias) == Some(row)
  {
    if aliases != [] {
      assert (aliases + [row])[1..] == aliases[1..] + [row];
      GetAliasAppend(aliases[1..], row);
    } else {
      assert aliases + [row] == [row];
    }
  }
}
