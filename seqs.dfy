/** Sequence helpers shared by the table models: `WHERE` filters and the
    `ORDER BY` of SQLite, a stable sort on an integer key. */
module Seqs {
  import opened Wrappers

  /** The elements of `s` satisfying `p`, in their order. */
  function Filter<T>(s: seq<T>, p: T -> bool): (r: seq<T>)
    ensures |r| <= |s|
    ensures forall i :: 0 <= i < |r| ==> p(r[i]) && r[i] in s
    ensures forall x :: x in s && p(x) ==> x in r
  {
    if s == [] then []
    else (if p(s[0]) then [s[0]] else []) + Filter(s[1..], p)
  }

  lemma {:induction false} FilterAppend<T>(a: seq<T>, b: seq<T>, p: T -> bool)
    ensures Filter(a + b, p) == Filter(a, p) + Filter(b, p)
  {
    if a != [] {
      assert (a + b)[1..] == a[1..] + b;
      FilterAppend(a[1..], b, p);
    } else {
      assert a + b == b;
    }
  }

  lemma {:induction false} FilterNone<T>(s: seq<T>, p: T -> bool)
    requires forall i :: 0 <= i < |s| ==> !p(s[i])
    ensures Filter(s, p) == []
  {
    if s != [] {
      FilterNone(s[1..], p);
    }
  }

  lemma {:induction false} FilterAll<T>(s: seq<T>, p: T -> bool)
    requires forall i :: 0 <= i < |s| ==> p(s[i])
    ensures Filter(s, p) == s
  {
    if s != [] {
      FilterAll(s[1..], p);
    }
  }

  /** Filtering keeps multiplicities of the kept elements. */
  lemma {:induction false} FilterMultiset<T>(s: seq<T>, p: T -> bool, x: T)
    requires p(x)
    ensures multiset(Filter(s, p))[x] == multiset(s)[x]
  {
    if s != [] {
      FilterMultiset(s[1..], p, x);
      assert s == [s[0]] + s[1..];
      assert multiset(s) == multiset{s[0]} + multiset(s[1..]);
      var head := if p(s[0]) then [s[0]] else [];
      assert multiset(Filter(s, p)) == multiset(head) + multiset(Filter(s[1..], p));
    }
  }

  /** A relation that holds between every earlier and later element still
      holds after filtering, since filtering keeps the order. */
  lemma {:induction false} FilterPairwise<T>(s: seq<T>, p: T -> bool, rel: (T, T) -> bool)
    requires forall i, j :: 0 <= i < j < |s| ==> rel(s[i], s[j])
    ensures forall i, j :: 0 <= i < j < |Filter(s, p)| ==> rel(Filter(s, p)[i], Filter(s, p)[j])
  {
    if s != [] {
      FilterPairwise(s[1..], p, rel);
      var rest := Filter(s[1..], p);
      if p(s[0]) {
        forall j | 0 <= j < |rest| ensures rel(s[0], rest[j]) {
          assert rest[j] in s[1..];
        }
      }
    }
  }

  /** Two elements of a sequence whose keys are pairwise distinct are equal
      when their keys are. */
  lemma KeyIdentifies<T, K>(s: seq<T>, key: T -> K, a: T, b: T)
    requires forall i, j :: 0 <= i < j < |s| ==> key(s[i]) != key(s[j])
    requires a in s && b in s && key(a) == key(b)
    ensures a == b
  {
    var i :| 0 <= i < |s| && s[i] == a;
    var j :| 0 <= j < |s| && s[j] == b;
    assert !(i < j) && !(j < i);
  }

  predicate SortedBy<T>(s: seq<T>, key: T -> int) {
    forall i, j :: 0 <= i < j < |s| ==> key(s[i]) <= key(s[j])
  }

  /** `x` placed before the first element whose key is not smaller. */
  function Insert<T>(x: T, s: seq<T>, key: T -> int): (r: seq<T>)
    requires SortedBy(s, key)
    ensures SortedBy(r, key)
    ensures multiset(r) == multiset(s) + multiset{x}
    ensures |r| == |s| + 1
  {
    if s == [] || key(x) <= key(s[0]) then [x] + s
    else
      var t := Insert(x, s[1..], key);
      InsertBehindHead(x, s, key, t);
      [s[0]] + t
  }

  /** The head stays first when `x` goes further in. */
  lemma InsertBehindHead<T>(x: T, s: seq<T>, key: T -> int, t: seq<T>)
    requires s != [] && SortedBy(s, key) && key(s[0]) < key(x)
    requires SortedBy(t, key) && multiset(t) == multiset(s[1..]) + multiset{x}
    ensures SortedBy([s[0]] + t, key) && multiset([s[0]] + t) == multiset(s) + multiset{x}
  {
    assert s == [s[0]] + s[1..];
    forall i | 0 <= i < |t| ensures key(s[0]) <= key(t[i]) {
      assert t[i] in multiset(t);
      if t[i] != x {
        assert t[i] in multiset(s[1..]);
        var k :| 0 <= k < |s[1..]| && s[1..][k] == t[i];
        assert s[k + 1] == t[i];
      }
    }
    var r := [s[0]] + t;
    forall i, j | 0 <= i < j < |r| ensures key(r[i]) <= key(r[j]) {
      if i > 0 {
        assert r[i] == t[i - 1] && r[j] == t[j - 1];
      } else {
        assert r[j] == t[j - 1];
      }
    }
  }

  /** `ORDER BY key`, keeping rows with equal keys in table order. */
  function SortBy<T>(s: seq<T>, key: T -> int): (r: seq<T>)
    ensures SortedBy(r, key)
    ensures multiset(r) == multiset(s)
    ensures |r| == |s|
  {
    if s == [] then []
    else
      assert s == [s[0]] + s[1..];
      Insert(s[0], SortBy(s[1..], key), key)
  }

  /** Sorting keeps the rows: a row is in the result iff it is in the input. */
  lemma SortByMembers<T>(s: seq<T>, key: T -> int)
    ensures forall x :: x in SortBy(s, key) <==> x in s
  {
    var r := SortBy(s, key);
    forall x ensures x in r <==> x in s {
      assert x in r <==> x in multiset(r);
      assert x in s <==> x in multiset(s);
    }
  }

  /** `[f(x) for x in s]`. */
  function Map<A, B>(s: seq<A>, f: A -> B): (r: seq<B>)
    ensures |r| == |s|
    ensures forall i :: 0 <= i < |s| ==> r[i] == f(s[i])
  {
    seq(|s|, i requires 0 <= i < |s| => f(s[i]))
  }

  lemma MapMembers<A, B>(s: seq<A>, f: A -> B)
    ensures forall y :: y in Map(s, f) <==> exists x :: x in s && f(x) == y
  {
    var r := Map(s, f);
    forall y ensures y in r <==> exists x :: x in s && f(x) == y {
      if y in r {
        var i :| 0 <= i < |r| && r[i] == y;
        assert s[i] in s && f(s[i]) == y;
      }
      if exists x :: x in s && f(x) == y {
        var x :| x in s && f(x) == y;
        var i :| 0 <= i < |s| && s[i] == x;
        assert r[i] == y;
      }
    }
  }

  /** No two elements share a key: a primary key or a unique index. */
  ghost predicate KeysDistinct<T, K>(s: seq<T>, key: T -> K) {
    forall i, j :: 0 <= i < j < |s| ==> key(s[i]) != key(s[j])
  }

  lemma KeysDistinctAppend<T, K>(s: seq<T>, key: T -> K, x: T)
    requires KeysDistinct(s, key)
    requires forall y :: y in s ==> key(y) != key(x)
    ensures KeysDistinct(s + [x], key)
  {
    var t := s + [x];
    forall i, j | 0 <= i < j < |t| ensures key(t[i]) != key(t[j]) {
      if j == |s| {
        assert t[i] in s;
      } else {
        assert t[i] == s[i] && t[j] == s[j];
      }
    }
  }

  lemma KeysDistinctFilter<T, K>(s: seq<T>, key: T -> K, p: T -> bool)
    requires KeysDistinct(s, key)
    ensures KeysDistinct(Filter(s, p), key)
  {
    FilterPairwise(s, p, (a: T, b: T) => key(a) != key(b));
  }

  /** A pointwise rewrite of the rows that keeps every key keeps the keys
      distinct. */
  lemma KeysDistinctRewrite<T, K>(s: seq<T>, t: seq<T>, key: T -> K)
    requires KeysDistinct(s, key) && |t| == |s|
    requires forall i :: 0 <= i < |s| ==> key(t[i]) == key(s[i])
    ensures KeysDistinct(t, key)
  {
  }

  /** One more row read by a loop that keeps `f(x)` of the rows satisfying
      `p`. */
  lemma SelectStep<T, V>(s: seq<T>, i: nat, p: T -> bool, f: T -> V)
    requires i < |s|
    ensures Map(Filter(s[..i + 1], p), f) == Map(Filter(s[..i], p), f) + (if p(s[i]) then [f(s[i])] else [])
  {
    assert s[..i + 1] == s[..i] + [s[i]];
    FilterAppend(s[..i], [s[i]], p);
    assert [s[i]][1..] == [];
    assert Filter([s[i]], p) == if p(s[i]) then [s[i]] else [];
  }

  /** `[f(x) for x in s if p(x)]` holds exactly the images of the kept
      elements. */
  lemma SelectedMembers<T, V>(s: seq<T>, p: T -> bool, f: T -> V)
    ensures forall y :: y in Map(Filter(s, p), f) <==> exists x :: x in s && p(x) && f(x) == y
  {
    MapMembers(Filter(s, p), f);
    forall y ensures y in Map(Filter(s, p), f) <==> exists x :: x in s && p(x) && f(x) == y {
      if y in Map(Filter(s, p), f) {
        var x :| x in Filter(s, p) && f(x) == y;
        var i :| 0 <= i < |Filter(s, p)| && Filter(s, p)[i] == x;
      }
    }
  }

  /** `SELECT f(x) FROM s WHERE p(x) ORDER BY key(x)` returns exactly the
      images of the selected rows. */
  lemma SelectMembers<T, V>(s: seq<T>, p: T -> bool, key: T -> int, f: T -> V)
    ensures forall y :: y in Map(SortBy(Filter(s, p), key), f) <==> exists x :: x in s && p(x) && f(x) == y
  {
    var rows := SortBy(Filter(s, p), key);
    SortByMembers(Filter(s, p), key);
    MapMembers(rows, f);
    forall y ensures y in Map(rows, f) <==> exists x :: x in s && p(x) && f(x) == y {
      if exists x :: x in s && p(x) && f(x) == y {
        var x :| x in s && p(x) && f(x) == y;
        assert x in rows;
      }
      if y in Map(rows, f) {
        var x :| x in rows && f(x) == y;
        assert x in Filter(s, p);
      }
    }
  }

  /** Keeping the images that satisfy `p` keeps exactly those images. */
  lemma FilterMapMembers<T, V>(s: seq<T>, f: T -> V, p: V -> bool)
    ensures forall y :: y in Filter(Map(s, f), p) <==> p(y) && exists x :: x in s && f(x) == y
  {
    MapMembers(s, f);
    var kept := Filter(Map(s, f), p);
    forall y | y in kept ensures p(y) && y in Map(s, f) {
      var i :| 0 <= i < |kept| && kept[i] == y;
    }
  }

  /** Projecting sorted rows onto a value carrying the same key keeps them
      sorted. */
  lemma MapSorted<T, V>(s: seq<T>, key: T -> int, f: T -> V, key2: V -> int)
    requires SortedBy(s, key)
    requires forall x :: key2(f(x)) == key(x)
    ensures SortedBy(Map(s, f), key2)
  {
  }

  /** The first element satisfying `p`: the row `fetchone` returns for a
      query without `ORDER BY`, rows being read in table order. */
  function First<T>(s: seq<T>, p: T -> bool): (r: Option<T>)
    ensures r.Some? ==> r.value in s && p(r.value)
    ensures r.Some? ==> exists i :: 0 <= i < |s| && s[i] == r.value && forall j :: 0 <= j < i ==> !p(s[j])
    ensures r.None? <==> forall x :: x in s ==> !p(x)
  {
    if s == [] then None
    else if p(s[0]) then Some(s[0])
    else
      var r := First(s[1..], p);
      assert forall x :: x in s[1..] ==> x in s;
      assert forall x :: x in s && x != s[0] ==> x in s[1..];
      if r.Some? then
        ghost var i :| 0 <= i < |s[1..]| && s[1..][i] == r.value && forall j :: 0 <= j < i ==> !p(s[1..][j]);
        assert s[i + 1] == r.value && forall j :: 0 <= j < i + 1 ==> !p(s[j]);
        r
      else r
  }

  /** A row appended after the others is found only when no earlier row
      qualifies. */
  lemma {:induction false} FirstAppend<T>(s: seq<T>, x: T, p: T -> bool)
    ensures First(s + [x], p) == (if First(s, p).Some? then First(s, p) else if p(x) then Some(x) else None)
  {
    if s == [] {
      assert s + [x] == [x];
    } else {
      assert (s + [x])[1..] == s[1..] + [x];
      FirstAppend(s[1..], x, p);
    }
  }

  /** When one row alone qualifies, it is the one found. */
  lemma FirstOnly<T>(s: seq<T>, p: T -> bool, x: T)
    requires x in s && p(x)
    requires forall y :: y in s && p(y) ==> y == x
    ensures First(s, p) == Some(x)
  {
  }

  /** Rewriting rows without changing whether they qualify: the row found is
      the rewrite of the row found before. */
  lemma {:induction false} FirstMap<T>(s: seq<T>, f: T -> T, p: T -> bool)
    requires forall x :: p(f(x)) == p(x)
    ensures First(Map(s, f), p) == (if First(s, p).Some? then Some(f(First(s, p).value)) else None)
  {
    if s != [] {
      FirstMap(s[1..], f, p);
      assert Map(s, f)[1..] == Map(s[1..], f);
    }
  }

  /** `INSERT … ON CONFLICT DO UPDATE`: when some row conflicts with the new
      one, every conflicting row is rewritten by `update`; otherwise `newRow`
      is appended. */
  function Upsert<T>(rows: seq<T>, conflict: T -> bool, update: T -> T, newRow: T): seq<T> {
    if First(rows, conflict).Some? then Map(rows, (x: T) => if conflict(x) then update(x) else x)
    else rows + [newRow]
  }

  /** After an upsert the key reads back as the updated old row, or as the
      new row when there was none. */
  lemma UpsertReadBack<T>(rows: seq<T>, conflict: T -> bool, update: T -> T, newRow: T)
    requires forall x :: conflict(update(x)) == conflict(x)
    requires conflict(newRow)
    ensures First(Upsert(rows, conflict, update, newRow), conflict)
      == Some(if First(rows, conflict).Some? then update(First(rows, conflict).value) else newRow)
  {
    if First(rows, conflict).Some? {
      FirstMap(rows, (x: T) => if conflict(x) then update(x) else x, conflict);
    } else {
      FirstAppend(rows, newRow, conflict);
    }
  }

  /** Rows that do not conflict are left as they were. */
  lemma UpsertKeepsOthers<T>(rows: seq<T>, conflict: T -> bool, update: T -> T, newRow: T, x: T)
    requires x in rows && !conflict(x)
    ensures x in Upsert(rows, conflict, update, newRow)
  {
    var r := Upsert(rows, conflict, update, newRow);
    var i :| 0 <= i < |rows| && rows[i] == x;
    if First(rows, conflict).Some? {
      assert r[i] == x;
    } else {
      assert r[i] == x;
    }
  }

  /** Every row after an upsert is an old row, an updated old row or the new
      row. */
  lemma UpsertRows<T>(rows: seq<T>, conflict: T -> bool, update: T -> T, newRow: T, y: T)
    requires y in Upsert(rows, conflict, update, newRow)
    ensures (y in rows && !conflict(y)) || (exists x :: x in rows && conflict(x) && y == update(x))
      || (First(rows, conflict).None? && y == newRow)
  {
    var r := Upsert(rows, conflict, update, newRow);
    var i :| 0 <= i < |r| && r[i] == y;
    if First(rows, conflict).Some? {
      assert rows[i] in rows;
    } else if i < |rows| {
      assert rows[i] in rows;
    }
  }

  /** A key that an update keeps and that a new row does not share with the
      old ones stays distinct. */
  lemma UpsertKeysDistinct<T, K>(rows: seq<T>, conflict: T -> bool, update: T -> T, newRow: T, key: T -> K)
    requires KeysDistinct(rows, key)
    requires forall x :: key(update(x)) == key(x)
    requires First(rows, conflict).None? ==> forall y :: y in rows ==> key(y) != key(newRow)
    ensures KeysDistinct(Upsert(rows, conflict, update, newRow), key)
  {
    if First(rows, conflict).Some? {
      KeysDistinctRewrite(rows, Upsert(rows, conflict, update, newRow), key);
    } else {
      KeysDistinctAppend(rows, key, newRow);
    }
  }

  /** A bound on an integer key that updates keep and the new row meets
      holds after the upsert. */
  lemma UpsertBound<T>(rows: seq<T>, conflict: T -> bool, update: T -> T, newRow: T, key: T -> int, bound: int)
    requires forall y :: y in rows ==> key(y) < bound
    requires forall x :: key(update(x)) == key(x)
    requires key(newRow) < bound
    ensures forall y :: y in Upsert(rows, conflict, update, newRow) ==> key(y) < bound
  {
    forall y | y in Upsert(rows, conflict, update, newRow) ensures key(y) < bound {
      UpsertRows(rows, conflict, update, newRow, y);
    }
  }

  /** Searching a concatenation searches the first part, then the second. */
  lemma {:induction false} FirstConcat<T>(a: seq<T>, b: seq<T>, p: T -> bool)
    ensures First(a + b, p) == (if First(a, p).Some? then First(a, p) else First(b, p))
  {
    if a != [] {
      assert (a + b)[1..] == a[1..] + b;
      FirstConcat(a[1..], b, p);
    } else {
      assert a + b == b;
    }
  }

  /** The distinct elements of `s`, each at its first occurrence. */
  function Distinct<T(==,!new)>(s: seq<T>): (r: seq<T>)
    ensures forall x :: x in r <==> x in s
    ensures forall i, j :: 0 <= i < j < |r| ==> r[i] != r[j]
  {
    if s == [] then []
    else
      var rest := Distinct(s[..|s| - 1]);
      assert forall x :: x in s <==> x in s[..|s| - 1] || x == s[|s| - 1];
      if s[|s| - 1] in rest then rest else rest + [s[|s| - 1]]
  }
}
