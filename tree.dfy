/** The children of a navigation-tree node, loaded from the database by the
    loader of the node's kind and kept in a process-wide cache for 90
    seconds. */
module NavCache {
  import opened Wrappers

  /** `CACHE_TTL_SECONDS`. */
  const Ttl: real := 90.0

  /** A loader's result: the rows it returns. */
  type Rows = seq<seq<Scalar>>

  /** The cache key: the node's kind and its loader arguments. */
  type Key = (string, seq<Scalar>)

  /** A tree node: its kind, its loader arguments and its label. */
  datatype TreeNode = TreeNode(kind: string, args: seq<Scalar>, caption: string)

  /** The kinds `KIND_TO_LOADER` has a loader for. */
  predicate HasLoader(kind: string) {
    kind in {"root", "level", "term", "subject", "section", "year", "lecturer"}
  }

  /** The cached value for `key` at time `now`, when one was stored less
      than 90 seconds before. */
  function Lookup(entries: map<Key, (real, Rows)>, key: Key, now: real): (r: Option<Rows>)
    ensures r.Some? <==> key in entries && now - entries[key].0 < Ttl
    ensures r.Some? ==> r.value == entries[key].1
  {
    if key in entries && now - entries[key].0 < Ttl then Some(entries[key].1) else None
  }

  /** What the loader gives for a node: the database's answer for a kind
      with a loader, `[]` for any other kind. */
  function Loaded(node: TreeNode, load: (string, seq<Scalar>) -> Rows): (r: Rows)
    ensures !HasLoader(node.kind) ==> r == []
    ensures HasLoader(node.kind) ==> r == load(node.kind, node.args)
  {
    if HasLoader(node.kind) then load(node.kind, node.args) else []
  }

  /** The module-level `_cache`. */
  class ChildrenCache {
    var entries: map<Key, (real, Rows)>

    constructor ()
      ensures entries == map[]
    {
      entries := map[];
    }

    /** `invalidate()`: everything forgotten. */
    method Invalidate()
      modifies this
      ensures entries == map[]
    {
      entries := map[];
    }

    /** `Node.children()` at time `now` with the database as `load`: a
        fresh cached value is returned as it is; otherwise the loader's
        answer is stored with the current time and returned. */
    method Children(node: TreeNode, now: real, load: (string, seq<Scalar>) -> Rows) returns (r: Rows)
      modifies this
      ensures Lookup(old(entries), (node.kind, node.args), now).Some? ==>
        r == Lookup(old(entries), (node.kind, node.args), now).value && entries == old(entries)
      ensures Lookup(old(entries), (node.kind, node.args), now).None? ==>
        r == Loaded(node, load) && entries == old(entries)[(node.kind, node.args) := (now, r)]
    {
      var key := (node.kind, node.args);
      if key in entries && now - entries[key].0 < Ttl {
        return entries[key].1;
      }
      var result: Rows;
      if !HasLoader(node.kind) {
        result := [];
      } else {
        result := load(node.kind, node.args);
      }
      entries := entries[key := (now, result)];
      return result;
    }
  }

  /** A value just stored is served for the next 90 seconds and no
      longer. */
  lemma StoredServed(entries: map<Key, (real, Rows)>, key: Key, stamp: real, rows: Rows, now: real)
    ensures stamp <= now < stamp + Ttl ==> Lookup(entries[key := (stamp, rows)], key, now) == Some(rows)
    ensures now >= stamp + Ttl ==> Lookup(entries[key := (stamp, rows)], key, now).None?
  {
  }

  /** Storing under one key leaves what every other key serves alone. */
  lemma StoreKeepsOthers(entries: map<Key, (real, Rows)>, key: Key, other: Key, stamp: real, rows: Rows, now: real)
    requires other != key
    ensures Lookup(entries[key := (stamp, rows)], other, now) == Lookup(entries, other, now)
  {
  }

  /** After `invalidate()` nothing is served. */
  lemma InvalidatedServesNothing(key: Key, now: real)
    ensures Lookup(map[], key, now).None?
  {
  }

  /** Asking twice within 90 seconds of a load gives the loaded answer
      again, even when the database has changed in between: an update shows
      only once the cached value expires or the cache is invalidated. (A
      first answer that was itself served from the cache may expire
      sooner.) */
  method ChildrenTwice(c: ChildrenCache, node: TreeNode, t1: real, t2: real,
                       load1: (string, seq<Scalar>) -> Rows, load2: (string, seq<Scalar>) -> Rows)
    returns (r1: Rows, r2: Rows)
    requires t1 <= t2 < t1 + Ttl
    modifies c
    ensures Lookup(old(c.entries), (node.kind, node.args), t1).None? ==> r1 == Loaded(node, load1) && r2 == r1
  {
    r1 := c.Children(node, t1, load1);
    r2 := c.Children(node, t2, load2);
  }

  /** After `invalidate()` the next call asks the database. */
  method ChildrenAfterInvalidate(c: ChildrenCache, node: TreeNode, now: real, load: (string, seq<Scalar>) -> Rows)
    returns (r: Rows)
    modifies c
    ensures r == Loaded(node, load)
  {
    c.Invalidate();
    r := c.Children(node, now, load);
  }
}
