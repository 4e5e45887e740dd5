/**
 * The generations of protocol and engine are maps; here they are trees in pages: what a checkpoint
 * builds from an engine's rows can always be read back, and reading it is reading the map
 * (checkpoint.go, mvcc/snapshot.go).
 */
module Storage {
  import opened Bytes
  import opened Wrappers
  import opened Seqs
  import opened Sorting
  import opened KVLists
  import opened Shapes
  import opened ShapeOps
  import opened Nodes
  import opened PageStore
  import opened TreePages
  import opened Trees
  import opened Scans
  import opened LevelBuilds
  import opened Builders
  import opened Compaction
  import opened Generations
  import Schema
  import Engine
  import Entries

  /** The tree under a root stands for a generation's map. */
  ghost predicate Stands(store: Store, root: PageId, t: Shape, h: nat, db: Entries.Db)
    reads store
  {
    && store.Valid() && RootRepr(store.pages, root, t) && WellFormed(t, h, Unbounded, Unbounded)
    && ToMap(Contents(t)) == db
  }

  // ---- An engine's rows always load ----

  lemma InMap(kvs: seq<KV>, kv: KV)
    requires kv in kvs
    ensures kv.key in ToMap(kvs)
  {
    hide ToMap, Find;
    FindIsLookup(kvs, kv.key);
    FindInSorted(kvs, kv.key);
  }

  /** A key of at most 267 bytes: its entry fits a page, whatever the value, and it can be a separator. */
  lemma ShortRow(kv: KV)
    requires |kv.key| <= Schema.MAX_ROW
    ensures KvSize(kv) + 2 <= BODY_SIZE && |kv.key| <= MAX_KEY
  {
  }

  lemma RowsLoad(kvs: seq<KV>)
    requires forall k :: k in ToMap(kvs) ==> |k| <= Schema.MAX_ROW
    ensures BulkFits(kvs)
  {
    hide BulkFits, ToMap, KvSize;
    forall kv | kv in kvs
      ensures KvSize(kv) + 2 <= BODY_SIZE && |kv.key| <= MAX_KEY
    {
      InMap(kvs, kv);
      ShortRow(kv);
    }
    ShortKeysLoad(kvs);
  }

  lemma FoldedRows(g: Gen, log: seq<Entries.LogEntry>, k: bytes)
    requires Engine.Intact(g, log) && k in Entries.Fold(g.db, Entries.Mutations(log, g.applied))
    ensures |k| <= Schema.MAX_ROW
  {
    Schema.RowsAreShort(Entries.Fold(g.db, Entries.Mutations(log, g.applied)), k);
  }

  lemma CompactIsFold(g: Gen, log: seq<Entries.LogEntry>)
    ensures Compact(g, log) ==
            Gen(Entries.Fold(g.db, Entries.Mutations(log, g.applied)), Entries.MaxTx(log, g.applied))
  {
    Entries.MergeIsFold(g.db, Entries.Mutations(log, g.applied));
  }

  /**
   * A checkpoint on pages is the checkpoint on maps: from a tree that stands for a generation and a
   * log whose contents are an engine's, the built tree can be read and stands for the generation
   * with the log folded in.
   */
  method FoldOnPages(base: Store, root: PageId, g: Gen, log: seq<Entries.LogEntry>, ghost t: Shape, ghost h: nat)
    returns (store: Store, newRoot: PageId, applied: nat, ghost t': Shape, ghost h': nat)
    requires Stands(base, root, t, h, g.db) && Engine.Intact(g, log)
    requires GenerationFits(Contents(t), Entries.Net(Entries.Mutations(log, g.applied)))
    ensures fresh(store) && Stands(store, newRoot, t', h', Compact(g, log).db) && applied == Compact(g, log).applied
  {
    hide *;
    StandsIs(base, root, t, h, g.db);
    var r;
    store, r, applied, t', h' := Compaction.BuildGeneration(base, root, g.applied, log, t, h);
    newRoot := r.value;
    CompactIsFold(g, log);
    forall k | k in ToMap(Contents(t'))
      ensures |k| <= Schema.MAX_ROW
    {
      FoldedRows(g, log, k);
    }
    RowsLoad(Contents(t'));
    LoadedStands(store.pages, newRoot, t', h');
    StandsIs(store, newRoot, t', h', Compact(g, log).db);
  }

  lemma StandsIs(store: Store, root: PageId, t: Shape, h: nat, db: Entries.Db)
    ensures Stands(store, root, t, h, db) <==>
              && store.Valid() && RootRepr(store.pages, root, t) && WellFormed(t, h, Unbounded, Unbounded)
              && ToMap(Contents(t)) == db
  {
  }

  lemma LoadedStands(pages: Pages, root: PageId, t: Shape, h: nat)
    requires Loaded(pages, root, t, h) && BulkFits(Contents(t))
    ensures RootRepr(pages, root, t) && WellFormed(t, h, Unbounded, Unbounded)
  {
  }

  // ---- Reading pages is reading the map ----

  method Get(store: Store, root: PageId, key: bytes, ghost db: Entries.Db, ghost t: Shape, ghost h: nat)
    returns (r: Result<Option<bytes>>)
    requires Stands(store, root, t, h, db)
    ensures r == Ok(KVLists.Lookup(db, key))
  {
    hide WellFormed, RootRepr, Contents, Find, ToMap;
    r := GetFrom(store, root, key, t, h);
    FindIsLookup(Contents(t), key);
  }

  /** The rows of a map under a prefix, in the order of a list of its keys. */
  function RowsUnder(keys: seq<bytes>, db: Entries.Db, prefix: bytes): seq<KV>
    requires forall k :: k in keys ==> k in db
  {
    if keys == [] then []
    else (if prefix <= keys[0] then [KV(keys[0], db[keys[0]])] else []) + RowsUnder(keys[1..], db, prefix)
  }

  function KeysOf(kvs: seq<KV>): seq<bytes> {
    seq(|kvs|, i requires 0 <= i < |kvs| => kvs[i].key)
  }

  lemma {:induction false} MatchingRows(kvs: seq<KV>, db: Entries.Db, prefix: bytes)
    requires forall i :: 0 <= i < |kvs| ==> kvs[i].key in db && db[kvs[i].key] == kvs[i].value
    ensures RowsUnder(KeysOf(kvs), db, prefix) == Matching(kvs, prefix)
  {
    if kvs != [] {
      assert KeysOf(kvs)[1..] == KeysOf(kvs[1..]);
      assert forall i :: 0 <= i < |kvs| - 1 ==> kvs[1..][i] == kvs[i + 1];
      MatchingRows(kvs[1..], db, prefix);
    }
  }

  lemma AscendingKeys(kvs: seq<KV>)
    requires Sorted(kvs)
    ensures Ascending(KeysOf(kvs))
  {
  }

  /** There is one ascending list of a set of keys. */
  lemma {:induction false} AscendingUnique(a: seq<bytes>, b: seq<bytes>)
    requires Ascending(a) && Ascending(b) && forall k :: k in a <==> k in b
    ensures a == b
    decreases |a|
  {
    BothEmpty(a, b);
    if a != [] {
      SameHead(a, b);
      AscendingSlice(a, 1, |a|);
      AscendingSlice(b, 1, |b|);
      assert a[1..|a|] == a[1..] && b[1..|b|] == b[1..];
      NotInTail(a);
      NotInTail(b);
      AscendingUnique(a[1..], b[1..]);
      HeadTail(a);
      HeadTail(b);
    }
  }

  lemma BothEmpty<T>(a: seq<T>, b: seq<T>)
    requires forall x :: x in a <==> x in b
    ensures a == [] <==> b == []
  {
    assert a != [] ==> a[0] in a;
    assert b != [] ==> b[0] in b;
  }

  lemma SameHead(a: seq<bytes>, b: seq<bytes>)
    requires Ascending(a) && Ascending(b) && a != [] && b != [] && a[0] in b && b[0] in a
    ensures a[0] == b[0]
  {
    LessOrder();
  }

  lemma NotInTail(s: seq<bytes>)
    requires Ascending(s) && s != []
    ensures s[0] !in s[1..] && forall k :: k in s <==> k == s[0] || k in s[1..]
  {
    LessIrreflexive(s[0]);
    HeadTail(s);
  }

  lemma SortedValues(kvs: seq<KV>, i: nat)
    requires Sorted(kvs) && i < |kvs|
    ensures kvs[i].key in ToMap(kvs) && ToMap(kvs)[kvs[i].key] == kvs[i].value
  {
    hide ToMap, Find, Sorted;
    FindIsLookup(kvs, kvs[i].key);
    FindInSorted(kvs, kvs[i].key);
  }

  lemma KeyOfSome(kvs: seq<KV>, k: bytes)
    ensures k in ToMap(kvs) <==> k in KeysOf(kvs)
  {
    hide ToMap, Find;
    FindIsLookup(kvs, k);
    FindInSorted(kvs, k);
    assert forall i :: 0 <= i < |kvs| ==> KeysOf(kvs)[i] == kvs[i].key;
  }

  /** Walking a map's sorted keys, as the engine's loops do here, visits what a scan of the tree visits. */
  lemma ScanIsIteration(kvs: seq<KV>, keys: seq<bytes>, prefix: bytes)
    requires Sorted(kvs) && Ascending(keys) && forall k :: k in keys <==> k in ToMap(kvs)
    ensures RowsUnder(keys, ToMap(kvs), prefix) == Matching(kvs, prefix)
  {
    hide Sorted, Ascending, ToMap, Find, RowsUnder, Matching, KeysOf;
    AscendingKeys(kvs);
    forall k
      ensures k in ToMap(kvs) <==> k in KeysOf(kvs)
    {
      KeyOfSome(kvs, k);
    }
    AscendingUnique(keys, KeysOf(kvs));
    forall i | 0 <= i < |kvs|
      ensures kvs[i].key in ToMap(kvs) && ToMap(kvs)[kvs[i].key] == kvs[i].value
    {
      SortedValues(kvs, i);
    }
    MatchingRows(kvs, ToMap(kvs), prefix);
  }

  /** The rows under a prefix, by a scan of the pages. */
  method ScanRows(store: Store, root: PageId, prefix: bytes, ghost db: Entries.Db, ghost keys: seq<bytes>,
                  ghost t: Shape, ghost h: nat)
    returns (rows: seq<KV>)
    requires Stands(store, root, t, h, db) && Ascending(keys) && forall k :: k in keys <==> k in db
    ensures rows == RowsUnder(keys, db, prefix)
  {
    hide WellFormed, RootRepr, Contents, Matching, Sorted, RowsUnder, ToMap;
    var fn: Visitor := calls => true;
    OfferIsPrefix(fn, [], Matching(Contents(t), prefix));
    ContentsOrdered(t, h, Unbounded, Unbounded);
    ScanIsIteration(Contents(t), keys, prefix);
    var v := Scan(store, root, prefix, fn, t, h);
    return v.calls;
  }
}
