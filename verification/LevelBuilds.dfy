/** Building one internal level of a bulk-loaded tree over the level below (btree/build.go, buildInternalLevel). */
module LevelBuilds {
  import opened Bytes
  import opened Seqs
  import opened Shapes
  import opened ShapeOps
  import opened Fitting
  import opened Nodes
  import opened PageStore
  import opened TreePages
  import opened Trees
  import opened Levels

  datatype LevelEntry = LevelEntry(firstKey: bytes, page: PageId)

  function FirstKeys(level: seq<LevelEntry>): seq<bytes> {
    seq(|level|, i requires 0 <= i < |level| => level[i].firstKey)
  }

  /** The longest separator that a branch over two children has room for. */
  const MAX_KEY := BODY_SIZE - 20

  /** A tree whose nodes were all written: it can be read back if every node fits its page. */
  ghost predicate Written(pages: Pages, id: PageId, t: Shape) {
    if PagesFit(t) then Repr(pages, id, t) else Unreadable(pages, id)
  }

  lemma WrittenStable(a: Pages, b: Pages, id: PageId, t: Shape)
    requires Written(a, id, t) && Extends(a, b)
    ensures Written(b, id, t)
  {
    hide Repr, Unreadable, PagesFit, Extends;
    if PagesFit(t) {
      ReprStable(a, b, id, t);
    } else {
      UnreadableStable(a, b, id);
    }
  }

  /** Every entry of a level is the page of its subtree, written before the pages to come. */
  ghost predicate LevelRepr(pages: Pages, level: seq<LevelEntry>, shapes: seq<Shape>, limit: PageId) {
    && |level| == |shapes|
    && forall i :: 0 <= i < |level| ==>
         level[i].page < limit && Written(pages, level[i].page, shapes[i]) && |level[i].firstKey| < 0x1_0000
  }

  lemma LevelStable(a: Pages, b: Pages, level: seq<LevelEntry>, shapes: seq<Shape>, limit: PageId, limit': PageId)
    requires LevelRepr(a, level, shapes, limit) && Extends(a, b) && limit <= limit'
    ensures LevelRepr(b, level, shapes, limit')
  {
    hide Written, Extends;
    forall i | 0 <= i < |level|
      ensures Written(b, level[i].page, shapes[i])
    {
      WrittenStable(a, b, level[i].page, shapes[i]);
    }
  }

  lemma LevelSnoc(pages: Pages, level: seq<LevelEntry>, shapes: seq<Shape>, limit: PageId, e: LevelEntry, t: Shape)
    requires LevelRepr(pages, level, shapes, limit)
    requires e.page < limit && Written(pages, e.page, t) && |e.firstKey| < 0x1_0000
    ensures LevelRepr(pages, level + [e], shapes + [t], limit)
    ensures FirstKeys(level + [e]) == FirstKeys(level) + [e.firstKey]
  {
    hide Written;
  }

  lemma FirstKeysLength(level: seq<LevelEntry>)
    ensures |FirstKeys(level)| == |level|
  {
  }

  function PagesOf(level: seq<LevelEntry>): seq<PageId> {
    seq(|level|, i requires 0 <= i < |level| => level[i].page)
  }

  // ---- Packing one node ----

  /** The children from `i` up to `j`, under one node: the first key goes up, the others separate. */
  function GroupNode(children: seq<LevelEntry>, i: nat, j: nat): Node
    requires i < j <= |children|
  {
    Internal(FirstKeys(children)[i + 1..j], PagesOf(children)[i..j])
  }

  function GroupSize(children: seq<LevelEntry>, i: nat, j: nat): nat
    requires i < j <= |children|
  {
    10 + KeysSize(FirstKeys(children)[i + 1..j])
  }

  lemma GroupOne(children: seq<LevelEntry>, i: nat)
    requires i < |children|
    ensures GroupNode(children, i, i + 1) == Internal([], [children[i].page]) && GroupSize(children, i, i + 1) == 10
  {
  }

  lemma {:induction false} KeysSizeAppend(a: seq<bytes>, b: seq<bytes>)
    ensures KeysSize(a + b) == KeysSize(a) + KeysSize(b)
  {
    AppendTail(a, b);
    if a != [] {
      KeysSizeAppend(a[1..], b);
    }
  }

  lemma SliceNext<T>(s: seq<T>, i: nat, j: nat)
    requires i <= j < |s|
    ensures s[i..j + 1] == s[i..j] + [s[j]]
  {
  }

  lemma GroupNext(children: seq<LevelEntry>, i: nat, j: nat)
    requires i < j < |children|
    ensures GroupNode(children, i, j + 1) ==
            Internal(GroupNode(children, i, j).keys + [children[j].firstKey], GroupNode(children, i, j).children + [children[j].page])
    ensures GroupSize(children, i, j + 1) == GroupSize(children, i, j) + 10 + |children[j].firstKey|
  {
    var fk := FirstKeys(children);
    SliceNext(fk, i + 1, j);
    SliceNext(PagesOf(children), i, j);
    KeysSizeAppend(fk[i + 1..j], [fk[j]]);
    assert KeysSize([fk[j]]) == 10 + |fk[j]| + KeysSize([]);
  }

  /** The second child is taken unchecked: if it starts with a long key, the node overflows. */
  ghost predicate Overfull(children: seq<LevelEntry>, i: nat, j: nat) {
    j == i + 2 <= |children| && |children[i + 1].firstKey| > MAX_KEY
  }

  /** Takes children until the next one does not fit. The second child is taken unchecked, so a
      node has at least two children unless it is the last of its level. */
  method Pack(children: seq<LevelEntry>, i: nat) returns (n: Node, j: nat)
    requires i < |children|
    ensures i < j <= |children| && n == GroupNode(children, i, j)
    ensures GroupSize(children, i, j) > BODY_SIZE <==> Overfull(children, i, j)
    ensures j < |children| ==> j >= i + 2 && GroupSize(children, i, j + 1) > BODY_SIZE
  {
    hide GroupNode, GroupSize;
    GroupOne(children, i);
    var keys: seq<bytes>, kids := [], [children[i].page];
    var size := 2 + 8;
    j := i + 1;
    while j < |children|
      invariant i < j <= |children| && Internal(keys, kids) == GroupNode(children, i, j) && |kids| == j - i
      invariant size == GroupSize(children, i, j) && (size > BODY_SIZE <==> Overfull(children, i, j))
    {
      var k := children[j].firstKey;
      var add := 2 + |k| + 8;
      GroupNext(children, i, j);
      if |kids| >= 2 && size + add > BODY_SIZE {
        break;
      }
      keys := keys + [k];
      kids := kids + [children[j].page];
      size := size + add;
      j := j + 1;
    }
    n := Internal(keys, kids);
  }

  // ---- One level over another ----

  function GroupShape(children: seq<LevelEntry>, shapes: seq<Shape>, i: nat, j: nat): Shape
    requires i < j <= |children| == |shapes|
  {
    Branch(FirstKeys(children)[i + 1..j], shapes[i..j])
  }

  lemma GroupSound(pages: Pages, children: seq<LevelEntry>, shapes: seq<Shape>, limit: PageId, i: nat, j: nat)
    requires LevelRepr(pages, children, shapes, limit) && i < j <= |children| && limit <= INVALID
    requires GroupSize(children, i, j) > BODY_SIZE ==> j <= i + 2
    ensures var n := GroupNode(children, i, j);
            Shaped(n) && Encodable(n) && (Fits(n) <==> GroupSize(children, i, j) <= BODY_SIZE)
  {
    hide Written, KeysSize, EncodeLinks;
    var n := GroupNode(children, i, j);
    KeysSizeBounds(n.keys);
    LinksSizeIs(n.keys, n.children[1..]);
  }

  lemma GroupRepr(pages: Pages, children: seq<LevelEntry>, shapes: seq<Shape>, limit: PageId, i: nat, j: nat)
    requires LevelRepr(pages, children, shapes, limit) && i < j <= |children|
    requires forall m :: i <= m < j ==> PagesFit(shapes[m])
    ensures NodeRepr(pages, GroupNode(children, i, j), GroupShape(children, shapes, i, j), limit)
    ensures var t := GroupShape(children, shapes, i, j); forall m :: 0 <= m < |t.keys| ==> |t.keys[m]| < 0x1_0000
  {
    hide Repr, PagesFit;
    forall m | 0 <= m < j - i
      ensures PagesOf(children)[i..j][m] == children[i + m].page && shapes[i..j][m] == shapes[i + m]
      ensures PagesOf(children)[i..j][m] < limit && Repr(pages, PagesOf(children)[i..j][m], shapes[i..j][m])
    {
      assert Written(pages, children[i + m].page, shapes[i + m]);
    }
  }

  lemma GroupFits(children: seq<LevelEntry>, shapes: seq<Shape>, i: nat, j: nat)
    requires i < j <= |children| == |shapes|
    ensures PagesFit(GroupShape(children, shapes, i, j)) <==>
            GroupSize(children, i, j) <= BODY_SIZE && forall m :: i <= m < j ==> PagesFit(shapes[m])
  {
    hide KeysSize;
    var t := GroupShape(children, shapes, i, j);
    assert forall m :: 0 <= m < j - i ==> t.kids[m] == shapes[i + m];
    assert forall m :: i <= m < j ==> t.kids[m - i] == shapes[m];
    assert PagesFit(t) <==> Small(t) && forall m :: 0 <= m < |t.kids| ==> PagesFit(t.kids[m]);
    hide PagesFit;
    if forall m :: 0 <= m < |t.kids| ==> PagesFit(t.kids[m]) {
      forall m | i <= m < j
        ensures PagesFit(shapes[m])
      {
        assert PagesFit(t.kids[m - i]);
      }
    }
  }

  /** The page of a group: it can be read back if the group and everything under it fits. */
  lemma GroupWritten(before: Pages, after: Pages, children: seq<LevelEntry>, shapes: seq<Shape>, i: nat, j: nat,
                     id: PageId)
    requires LevelRepr(before, children, shapes, id) && i < j <= |children| == |shapes| && id < INVALID
    requires GroupSize(children, i, j) > BODY_SIZE ==> j <= i + 2
    requires Extends(before, after) && id in after && after[id] == PageOf(GroupNode(children, i, j))
    ensures Written(after, id, GroupShape(children, shapes, i, j))
  {
    hide LevelRepr, Repr, PageOf, Extends, PagesFit, Encodable, NodeBytes, Unreadable, NodeRepr;
    var n, t := GroupNode(children, i, j), GroupShape(children, shapes, i, j);
    GroupSound(before, children, shapes, id, i, j);
    GroupFits(children, shapes, i, j);
    if PagesFit(t) {
      GroupRepr(before, children, shapes, id, i, j);
      KeysSizeBounds(t.keys);
      WrittenNode(before, after, id, n, t);
    } else {
      if GroupSize(children, i, j) <= BODY_SIZE {
        var m :| i <= m < j && !PagesFit(shapes[m]);
        BadPage(before, children, shapes, id, i, j, m);
      }
      WrittenUnreadable(before, after, id, n);
    }
  }

  lemma BadPage(pages: Pages, children: seq<LevelEntry>, shapes: seq<Shape>, limit: PageId, i: nat, j: nat, m: nat)
    requires LevelRepr(pages, children, shapes, limit) && i <= m < j <= |children| && !PagesFit(shapes[m])
    ensures var n := GroupNode(children, i, j);
            exists b :: 0 <= b < |n.children| && n.children[b] < limit && Unreadable(pages, n.children[b])
  {
    hide PagesFit, Unreadable, Repr;
    var n := GroupNode(children, i, j);
    assert n.children[m - i] == children[m].page && Written(pages, children[m].page, shapes[m]);
  }

  lemma GroupFlat(children: seq<LevelEntry>, shapes: seq<Shape>, above: seq<Shape>, i: nat, j: nat)
    requires i < j <= |children| == |shapes| && Flat(above) == Flat(shapes[..i])
    ensures Flat(above + [GroupShape(children, shapes, i, j)]) == Flat(shapes[..j])
  {
    hide Flat, Contents;
    var t := GroupShape(children, shapes, i, j);
    FlatAppend(above, [t]);
    FlatOne(t);
    BranchContents(t);
    FlatAppend(shapes[..i], shapes[i..j]);
    assert shapes[..j] == shapes[..i] + shapes[i..j];
  }

  /** The first key at or after position `i`: where the part built so far ends. */
  function EndAt(fk: seq<bytes>, i: nat): Bound {
    if i < |fk| then Key(fk[i]) else Unbounded
  }

  lemma GroupOrdered(children: seq<LevelEntry>, shapes: seq<Shape>, above: seq<Shape>, out: seq<LevelEntry>, h: nat,
                     i: nat, j: nat, id: PageId)
    requires i < j <= |children| == |shapes|
    requires LevelWf(FirstKeys(children), shapes, h, Unbounded)
    requires LevelWf(FirstKeys(out), above, h + 1, EndAt(FirstKeys(children), i))
    ensures LevelWf(FirstKeys(out) + [children[i].firstKey], above + [GroupShape(children, shapes, i, j)], h + 1, EndAt(FirstKeys(children), j))
  {
    hide LevelWf, WellFormed;
    var fk := FirstKeys(children);
    GroupWf(fk, shapes, h, i, j);
    LevelAppend(FirstKeys(out), above, h + 1, fk[i], GroupShape(children, shapes, i, j), EndAt(fk, j));
  }

  lemma NoLevel(children: seq<LevelEntry>, shapes: seq<Shape>, pages: Pages, limit: PageId, h: nat)
    ensures LevelRepr(pages, [], [], limit) && Flat([]) == Flat(shapes[..0]) && Extends(pages, pages)
    ensures LevelWf(FirstKeys([]), [], h + 1, EndAt(FirstKeys(children), 0))
    ensures Doomed(FirstKeys([]), []) <==> Doomed(FirstKeys(children)[..0], shapes[..0])
    ensures shapes[..|shapes|] == shapes
  {
  }

  lemma LevelLength(pages: Pages, level: seq<LevelEntry>, shapes: seq<Shape>, limit: PageId)
    requires LevelRepr(pages, level, shapes, limit)
    ensures |level| == |shapes| && forall i :: 0 <= i < |level| ==> |level[i].firstKey| < 0x1_0000 && level[i].page < limit
  {
    hide Written;
  }

  // ---- When a level can be read back ----

  /** What will keep the finished tree from being read: a node that does not fit, or a long first key
      that is not the very first and so must become the separator before a second child. */
  ghost predicate Doomed(fk: seq<bytes>, shapes: seq<Shape>) {
    LongBehind(fk) || exists i :: 0 <= i < |shapes| && !PagesFit(shapes[i])
  }

  predicate LongBehind(fk: seq<bytes>) {
    exists i :: 0 < i < |fk| && |fk[i]| > MAX_KEY
  }

  lemma DoomedAppend(fk: seq<bytes>, shapes: seq<Shape>, k: bytes, t: Shape)
    requires |fk| == |shapes|
    ensures Doomed(fk + [k], shapes + [t]) <==>
            Doomed(fk, shapes) || (fk != [] && |k| > MAX_KEY) || !PagesFit(t)
  {
    hide PagesFit;
    var fk', shapes' := fk + [k], shapes + [t];
    assert fk'[|fk|] == k && shapes'[|fk|] == t;
    assert forall i :: 0 <= i < |fk| ==> fk'[i] == fk[i] && shapes'[i] == shapes[i];
  }

  lemma {:induction false} DoomedRun(fk: seq<bytes>, shapes: seq<Shape>, i: nat, j: nat)
    requires |fk| == |shapes| && i <= j <= |fk|
    ensures Doomed(fk[..j], shapes[..j]) <==>
            || Doomed(fk[..i], shapes[..i])
            || (exists m :: i <= m < j && m > 0 && |fk[m]| > MAX_KEY)
            || (exists m :: i <= m < j && !PagesFit(shapes[m]))
  {
    hide PagesFit, Doomed;
    if i < j {
      DoomedRun(fk, shapes, i, j - 1);
      TakeNext(fk, j - 1);
      TakeNext(shapes, j - 1);
      DoomedAppend(fk[..j - 1], shapes[..j - 1], fk[j - 1], shapes[j - 1]);
    }
  }

  /** Separators of a node that does not overflow are short; the one that makes it overflow is long. */
  lemma GroupLong(children: seq<LevelEntry>, i: nat, j: nat)
    requires i < j <= |children| && (GroupSize(children, i, j) > BODY_SIZE <==> Overfull(children, i, j))
    ensures GroupSize(children, i, j) > BODY_SIZE <==>
            exists m :: i + 1 <= m < j && |FirstKeys(children)[m]| > MAX_KEY
  {
    hide KeysSize;
    var fk := FirstKeys(children);
    KeysSizeBounds(fk[i + 1..j]);
    assert forall m :: i + 1 <= m < j ==> fk[i + 1..j][m - i - 1] == fk[m];
    assert Overfull(children, i, j) ==> |fk[i + 1]| > MAX_KEY;
  }

  /** Grouping neither removes nor adds a reason to fail. */
  lemma GroupDoomed(children: seq<LevelEntry>, shapes: seq<Shape>, out: seq<bytes>, above: seq<Shape>, i: nat, j: nat)
    requires i < j <= |children| == |shapes| && |out| == |above| && (out == [] <==> i == 0)
    requires GroupSize(children, i, j) > BODY_SIZE <==> Overfull(children, i, j)
    requires Doomed(out, above) <==> Doomed(FirstKeys(children)[..i], shapes[..i])
    ensures Doomed(out + [children[i].firstKey], above + [GroupShape(children, shapes, i, j)]) <==>
            Doomed(FirstKeys(children)[..j], shapes[..j])
  {
    hide PagesFit, Doomed, GroupSize, GroupShape;
    var fk := FirstKeys(children);
    assert fk[i] == children[i].firstKey;
    DoomedAppend(out, above, children[i].firstKey, GroupShape(children, shapes, i, j));
    DoomedRun(fk, shapes, i, j);
    GroupFits(children, shapes, i, j);
    GroupLong(children, i, j);
    if exists m :: i <= m < j && m > 0 && |fk[m]| > MAX_KEY {
      var m :| i <= m < j && m > 0 && |fk[m]| > MAX_KEY;
      assert m == i || i + 1 <= m;
    }
  }

  /** Builds the level above: the same contents in the same order, in at most half as many nodes. */
  method BuildInternalLevel(store: Store, children: seq<LevelEntry>, ghost shapes: seq<Shape>, ghost h: nat)
    returns (out: seq<LevelEntry>, ghost above: seq<Shape>)
    requires store.Valid() && |children| >= 2 && LevelRepr(store.pages, children, shapes, store.numPages)
    requires store.numPages + |children| <= INVALID
    modifies store
    ensures store.Valid() && Extends(old(store.pages), store.pages)
    ensures LevelRepr(store.pages, out, above, store.numPages) && Flat(above) == Flat(shapes)
    ensures 1 <= |out| <= (|children| + 1) / 2 && store.numPages == old(store.numPages) + |out|
    ensures LevelWf(FirstKeys(children), shapes, h, Unbounded) ==> LevelWf(FirstKeys(out), above, h + 1, Unbounded)
    ensures Doomed(FirstKeys(out), above) <==> Doomed(FirstKeys(children), shapes)
  {
    hide *;
    ghost var p0 := store.pages;
    NoLevel(children, shapes, store.pages, store.numPages, h);
    FirstKeysLength(children);
    LevelLength(store.pages, children, shapes, store.numPages);
    out, above := [], [];
    var i := 0;
    while i < |children|
      invariant 0 <= i <= |children| && store.Valid() && store.numPages == old(store.numPages) + |out|
      invariant Extends(p0, store.pages) && LevelRepr(store.pages, children, shapes, store.numPages)
      invariant LevelRepr(store.pages, out, above, store.numPages) && Flat(above) == Flat(shapes[..i])
      invariant (i < |children| ==> 2 * |out| <= i) && 2 * |out| <= i + 1
      invariant (i > 0 <==> |out| >= 1) && |out| == |above|
      invariant Doomed(FirstKeys(out), above) <==> Doomed(FirstKeys(children)[..i], shapes[..i])
      invariant LevelWf(FirstKeys(children), shapes, h, Unbounded) ==> LevelWf(FirstKeys(out), above, h + 1, EndAt(FirstKeys(children), i))
    {
      var n, j := Pack(children, i);
      ghost var p, lim := store.pages, store.numPages;
      GroupSound(p, children, shapes, lim, i, j) by { OnlyPairs(children, i, j); }
      var id := store.WriteNode(n);
      AddedToLevel(p0, p, store.pages, children, shapes, out, above, h, i, j, id);
      out := out + [LevelEntry(children[i].firstKey, id)];
      above := above + [GroupShape(children, shapes, i, j)];
      i := j;
    }
    EndOfLevel(children);
  }

  lemma EndOfLevel(children: seq<LevelEntry>)
    ensures EndAt(FirstKeys(children), |children|) == Unbounded && FirstKeys(children)[..|children|] == FirstKeys(children)
  {
  }

  lemma OnlyPairs(children: seq<LevelEntry>, i: nat, j: nat)
    ensures Overfull(children, i, j) ==> j == i + 2
  {
  }

  lemma AddedToLevel(p0: Pages, p: Pages, p': Pages, children: seq<LevelEntry>, shapes: seq<Shape>, out: seq<LevelEntry>,
                     above: seq<Shape>, h: nat, i: nat, j: nat, id: PageId)
    requires Extends(p0, p) && Extends(p, p') && id < INVALID && id in p'
    requires LevelRepr(p, children, shapes, id) && LevelRepr(p, out, above, id) && |children| == |shapes|
    requires i < j <= |children| && Flat(above) == Flat(shapes[..i])
    requires GroupSize(children, i, j) > BODY_SIZE <==> Overfull(children, i, j)
    requires (i > 0 <==> |out| >= 1) && |out| == |above| && |children[i].firstKey| < 0x1_0000
    requires Doomed(FirstKeys(out), above) <==> Doomed(FirstKeys(children)[..i], shapes[..i])
    requires p' == p[id := PageOf(GroupNode(children, i, j))]
    requires LevelWf(FirstKeys(children), shapes, h, Unbounded) ==> LevelWf(FirstKeys(out), above, h + 1, EndAt(FirstKeys(children), i))
    ensures var out', above' := out + [LevelEntry(children[i].firstKey, id)], above + [GroupShape(children, shapes, i, j)];
            && Extends(p0, p') && LevelRepr(p', children, shapes, id + 1) && LevelRepr(p', out', above', id + 1)
            && Flat(above') == Flat(shapes[..j])
            && (Doomed(FirstKeys(out'), above') <==> Doomed(FirstKeys(children)[..j], shapes[..j]))
            && (LevelWf(FirstKeys(children), shapes, h, Unbounded) ==> LevelWf(FirstKeys(out'), above', h + 1, EndAt(FirstKeys(children), j)))
  {
    hide *;
    ExtendsTransitive(p0, p, p');
    OnlyPairs(children, i, j);
    FirstKeysLength(out);
    GroupDoomed(children, shapes, FirstKeys(out), above, i, j);
    GroupWritten(p, p', children, shapes, i, j, id);
    LevelStable(p, p', children, shapes, id, id + 1);
    LevelStable(p, p', out, above, id, id + 1);
    LevelSnoc(p', out, above, id + 1, LevelEntry(children[i].firstKey, id), GroupShape(children, shapes, i, j));
    GroupFlat(children, shapes, above, i, j);
    if LevelWf(FirstKeys(children), shapes, h, Unbounded) {
      GroupOrdered(children, shapes, above, out, h, i, j, id);
    }
  }
}
