/** Applying log entries to a paged tree, one mutation at a time (apply/apply.go). */
module Applying {
  import opened Bytes
  import opened Seqs
  import opened KVLists
  import opened Shapes
  import opened ShapeOps
  import opened Fitting
  import opened Nodes
  import opened PageStore
  import opened TreePages
  import opened SplitBounds
  import opened Trees
  import Entries

  type Entry = Entries.Entry

  function RowOf(e: Entry): KV {
    KV(e.Key(), e.data)
  }

  predicate Inserts(e: Entry) {
    e.op.Put? || e.op.CreateClass?
  }

  /** What the fields of a leaf entry can hold. */
  predicate Takes(e: Entry) {
    Inserts(e) ==> |e.Key()| < 0x1_0000 && |e.data| <= INVALID
  }

  /** Pages that applying a list can take, on a tree of height `h`. */
  function Work(es: seq<Entry>, h: nat): nat {
    if es == [] then 0 else PageCount(|es[0].data|) + 2 * h + 4 + Work(es[1..], h + 1)
  }

  lemma {:induction false} WorkGrows(es: seq<Entry>, h: nat, h': nat)
    requires h <= h'
    ensures Work(es, h) <= Work(es, h')
  {
    if es != [] {
      WorkGrows(es[1..], h + 1, h' + 1);
    }
  }

  /** The mutations before the first of an unknown kind. */
  function KnownPrefix(es: seq<Entry>): (known: seq<Entry>)
    ensures known <= es
  {
    if es == [] || !es[0].Known() then [] else [es[0]] + KnownPrefix(es[1..])
  }

  lemma {:induction false} DeleteObeys(t: Shape, k: bytes, d: Limits)
    requires AllObey(t, d)
    ensures AllObey(ShapeOps.Delete(t, k), d)
  {
    hide Obeys, KeyObeys, Rank;
    match t
    case Tip(kvs) =>
      var kept := RemoveAt(kvs, k);
      forall i | 0 <= i < |kept|
        ensures Obeys(kept[i], d)
      {
        assert kept[i] == kvs[i] || (i + 1 < |kvs| && kept[i] == kvs[i + 1]);
      }
    case Branch(keys, kids) =>
      var ci := ChildIndex(keys, k);
      if ci < |kids| {
        DeleteObeys(kids[ci], k, d);
      }
  }

  // ---- One mutation ----

  /** Every page the mutation writes will hold its node. */
  predicate GoesWell(t: Shape, e: Entry) {
    Inserts(e) ==> InsertSafe(t, RowOf(e))
  }

  /** The tree after a mutation. */
  function After(t: Shape, e: Entry): Shape {
    if Inserts(e) then InsertRoot(t, RowOf(e)) else if e.Known() then ShapeOps.Delete(t, e.Key()) else t
  }

  datatype Outcome = Applied | UnknownOp | Stopped

  /** One mutation, of any size: an insertion or a deletion; an error that leaves the tree alone; or an
      insertion that does not fit, which stops at run time or leaves a root that cannot be read. */
  method One(tree: Tree, e: Entry) returns (r: Outcome)
    requires e.Known() ==> tree.Valid() && Takes(e)
    requires e.Known() ==> tree.store.numPages + PageCount(|e.data|) + 2 * tree.height + 4 < INVALID
    modifies tree, tree.store
    ensures r == UnknownOp <==> !e.Known()
    ensures r != Applied ==> tree.root == old(tree.root) && tree.shape == old(tree.shape)
    ensures !e.Known() ==> unchanged(tree, tree.store)
    ensures e.Known() ==> Extends(old(tree.store.pages), tree.store.pages)
    ensures e.Known() && GoesWell(old(tree.shape), e) ==>
              && r == Applied && tree.Valid() && tree.shape == After(old(tree.shape), e)
              && tree.Map() == Entries.Effect(old(tree.Map()), e)
    ensures e.Known() && !GoesWell(old(tree.shape), e) ==>
              if r == Applied then Unreadable(tree.store.pages, tree.root) else r == Stopped && tree.Valid()
    ensures e.Known() ==>
              && tree.store.numPages <= old(tree.store.numPages) + PageCount(|e.data|) + 2 * old(tree.height) + 4
              && tree.height <= old(tree.height) + 1
  {
    hide InsertSafe, InsertRoot, KvSize, PageCount, Contents, ToMap, Put, Remove, LandsAlone,
      WellFormed, PagesFit, RootRepr, Extends, ShapeOps.Delete, Unreadable, Entries.Entry.Key;
    if e.op.Put? || e.op.CreateClass? {
      var ok := tree.Insert(e.Key(), e.data);
      return if ok then Applied else Stopped;
    } else if e.op.Delete? || e.op.DropClass? {
      tree.Delete(e.Key());
      return Applied;
    }
    return UnknownOp;
  }

  // ---- A whole entry ----

  /** How many mutations at the front of a list go well, one after the other. */
  function WellFor(t: Shape, es: seq<Entry>): (n: nat)
    ensures n <= |KnownPrefix(es)| <= |es|
    decreases |es|
  {
    if es == [] || !es[0].Known() || !GoesWell(t, es[0]) then 0 else 1 + WellFor(After(t, es[0]), es[1..])
  }

  /** Within limits for which every split fits, every mutation goes well. */
  lemma {:induction false} SafeGoesWell(t: Shape, h: nat, es: seq<Entry>, d: Limits)
    requires WellFormed(t, h, Unbounded, Unbounded) && PagesFit(t) && AllObey(t, d) && SafeLimits(d)
    requires forall i :: 0 <= i < |es| ==> Inserts(es[i]) ==> Obeys(RowOf(es[i]), d)
    ensures WellFor(t, es) == |KnownPrefix(es)|
    decreases |es|
  {
    hide WellFormed, PagesFit, AllObey, SafeLimits, Obeys, InsertSafe, InsertRoot, ShapeOps.Delete, Entries.Entry.Key;
    if es != [] && es[0].Known() {
      var h' := SafeStep(t, h, es[0], d);
      assert forall i :: 0 <= i < |es| - 1 ==> es[1..][i] == es[i + 1];
      SafeGoesWell(After(t, es[0]), h', es[1..], d);
    }
  }

  lemma SafeStep(t: Shape, h: nat, e: Entry, d: Limits) returns (h': nat)
    requires WellFormed(t, h, Unbounded, Unbounded) && PagesFit(t) && AllObey(t, d) && SafeLimits(d)
    requires e.Known() && (Inserts(e) ==> Obeys(RowOf(e), d))
    ensures GoesWell(t, e) && WellFormed(After(t, e), h', Unbounded, Unbounded) && PagesFit(After(t, e))
    ensures AllObey(After(t, e), d)
  {
    hide WellFormed, PagesFit, AllObey, SafeLimits, Obeys, InsertSafe, InsertRoot, ShapeOps.Delete, ShapeOps.Insert,
      Entries.Entry.Key, Contents, Put, Remove, ToMap;
    if Inserts(e) {
      SafeInsertRoot(t, RowOf(e), d, h, Unbounded, Unbounded);
      InsertedContents(t, RowOf(e), h);
      h' := if ShapeOps.Insert(t, RowOf(e)).Two? then h + 1 else h;
    } else {
      DeleteObeys(t, e.Key(), d);
      DeleteCorrect(t, e.Key(), h, Unbounded, Unbounded);
      DeleteKeepsFit(t, e.Key());
      h' := h;
    }
  }

  predicate AllTaken(es: seq<Entry>) {
    forall i :: 0 <= i < |es| ==> Takes(es[i])
  }

  lemma TakesOne(es: seq<Entry>, i: nat)
    requires AllTaken(es) && i < |es|
    ensures Takes(es[i])
  {
  }

  lemma WellForStep(t: Shape, es: seq<Entry>, i: nat)
    requires i < |es|
    ensures es[i].Known() && GoesWell(t, es[i]) ==> WellFor(t, es[i..]) == 1 + WellFor(After(t, es[i]), es[i + 1..])
    ensures es[i].Known() && !GoesWell(t, es[i]) ==> WellFor(t, es[i..]) == 0
    ensures |KnownPrefix(es[i..])| == if es[i].Known() then 1 + |KnownPrefix(es[i + 1..])| else 0
  {
    hide GoesWell, After;
    TakeNext(es, i);
  }

  lemma RoomForOne(pages: nat, h: nat, es: seq<Entry>, i: nat)
    requires i < |es| && pages + Work(es[i..], h) < INVALID
    ensures pages + PageCount(|es[i].data|) + 2 * h + 4 < INVALID
  {
    hide PageCount;
    TakeNext(es, i);
  }

  lemma RoomLeft(pages: nat, h: nat, pages': nat, h': nat, es: seq<Entry>, i: nat)
    requires i < |es| && pages + Work(es[i..], h) < INVALID
    requires pages' <= pages + PageCount(|es[i].data|) + 2 * h + 4 && h' <= h + 1
    ensures pages' + Work(es[i + 1..], h') < INVALID
  {
    hide PageCount;
    TakeNext(es, i);
    WorkGrows(es[i + 1..], h', h + 1);
  }

  lemma KnownSplit(es: seq<Entry>, i: nat)
    requires i < |es|
    ensures KnownPrefix(es[i..]) == if es[i].Known() then [es[i]] + KnownPrefix(es[i + 1..]) else []
  {
    TakeNext(es, i);
  }

  lemma FoldHead(db: Entries.Db, e: Entry, rest: seq<Entry>)
    ensures Entries.Fold(db, [e] + rest) == Entries.Fold(Entries.Effect(db, e), rest)
  {
    Entries.FoldAppend(db, [e], rest);
    assert [e][..0] == [];
    assert Entries.Fold(db, [e]) == Entries.Effect(Entries.Fold(db, []), e);
  }

  /**
   * A whole entry: its mutations in order, up to the first of an unknown kind, which makes it an
   * error. If all of them go well, the tree stands for the fold of those mutations. If the last one
   * applied does not, and so far the outcome is known for mutations of any size, the entry stops
   * there or leaves a root that cannot be read.
   */
  method ApplyEntry(tree: Tree, e: Entry) returns (r: Outcome)
    requires tree.Valid() && AllTaken(e.Flatten())
    requires WellFor(tree.shape, e.Flatten()) + 1 >= |KnownPrefix(e.Flatten())|
    requires tree.store.numPages + Work(e.Flatten(), tree.height) < INVALID
    modifies tree, tree.store
    ensures Extends(old(tree.store.pages), tree.store.pages)
    ensures var es, known := e.Flatten(), KnownPrefix(e.Flatten());
            if WellFor(old(tree.shape), es) == |known| then
              && tree.Valid() && tree.Map() == Entries.Fold(old(tree.Map()), known)
              && r == if known == es then Applied else UnknownOp
            else r == Stopped || Unreadable(tree.store.pages, tree.root)
  {
    hide *;
    hide Entries.Fold, Entries.Effect, Entries.Entry.Flatten, Entries.Entry.Known, Tree.Valid, Tree.Map;
    var es := e.Flatten();
    ghost var goal := Entries.Fold(tree.Map(), KnownPrefix(es));
    ghost var well := WellFor(tree.shape, es) == |KnownPrefix(es)|;
    ghost var broken := false;
    Whole(es);
    ExtendsSelf(tree.store.pages);
    var i := 0;
    while i < |es|
      invariant Extends(old(tree.store.pages), tree.store.pages) && 0 <= i <= |es|
      invariant broken ==> !well && KnownPrefix(es[i..]) == [] && Unreadable(tree.store.pages, tree.root)
      invariant !broken ==> tree.Valid() && tree.store.numPages + Work(es[i..], tree.height) < INVALID
      invariant !broken ==> WellFor(tree.shape, es[i..]) + 1 >= |KnownPrefix(es[i..])|
      invariant !broken ==> (well <==> WellFor(tree.shape, es[i..]) == |KnownPrefix(es[i..])|)
      invariant !broken ==> Entries.Fold(tree.Map(), KnownPrefix(es[i..])) == goal
      invariant !broken ==> (KnownPrefix(es) == es <==> KnownPrefix(es[i..]) == es[i..])
    {
      ghost var t, pages, h := tree.shape, tree.store.numPages, tree.height;
      KnownSplit(es, i);
      TakeNext(es, i);
      SameTail(es[i], KnownPrefix(es[i + 1..]), es[i + 1..]);
      WellForStep(tree.shape, es, i);
      TakesOne(es, i);
      ghost var p := tree.store.pages;
      if !broken {
        RoomForOne(pages, h, es, i);
        FoldHead(tree.Map(), es[i], KnownPrefix(es[i + 1..]));
      }
      ExtendsSelf(p);
      var done := One(tree, es[i]);
      ExtendsTransitive(old(tree.store.pages), p, tree.store.pages);
      if done != Applied {
        NothingMore(tree.Map());
        return done;
      }
      if !broken {
        if GoesWell(t, es[i]) {
          RoomLeft(pages, h, tree.store.numPages, tree.height, es, i);
        } else {
          broken := true;
        }
      }
      i := i + 1;
    }
    NothingMore(tree.Map());
    return Applied;
  }

  lemma SameTail(e: Entry, a: seq<Entry>, b: seq<Entry>)
    ensures [e] + a == [e] + b <==> a == b
  {
    if [e] + a == [e] + b {
      assert a == ([e] + a)[1..] && b == ([e] + b)[1..];
    }
  }

  lemma NothingMore(db: Entries.Db)
    ensures Entries.Fold(db, []) == db && KnownPrefix([]) == []
  {
  }
}
