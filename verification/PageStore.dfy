/** The page store under the tree (page/pager.go) and values spilled over chains of pages (btree/encode.go). */
module PageStore {
  import opened Bytes
  import opened Wrappers
  import opened Seqs
  import opened Nodes

  type Pages = map<PageId, Page>

  /** Everything written in `a` is still there, unchanged, in `b`. */
  ghost predicate Extends(a: Pages, b: Pages) {
    forall id :: id in a ==> id in b && b[id] == a[id]
  }

  class Store {
    var pages: Pages
    var numPages: nat

    ghost predicate Valid()
      reads this
    {
      numPages >= 1 && (forall id :: id in pages ==> id < numPages) && LinksAscend(pages)
    }

    /** A new file: page 0 is the meta page, nothing else is allocated. */
    constructor ()
      ensures Valid() && pages == map[] && numPages == 1
    {
      pages, numPages := map[], 1;
    }

    method Allocate() returns (id: PageId)
      requires Valid()
      modifies `numPages
      ensures Valid()
      ensures id == old(numPages) && id !in pages && numPages == id + 1
    {
      id := numPages;
      numPages := numPages + 1;
    }

    method WritePage(id: PageId, p: Page)
      requires Valid() && id < numPages && LinkAscends(id, p)
      modifies `pages
      ensures Valid() && pages == old(pages)[id := p]
    {
      pages := pages[id := p];
    }

    method ReadPage(id: PageId) returns (r: Result<Page>)
      ensures r == if id in pages then Ok(pages[id]) else Err
    {
      r := if id in pages then Ok(pages[id]) else Err;
    }

    /** Encodes a node into a newly allocated page. */
    method WriteNode(n: Node) returns (id: PageId)
      requires Valid() && Shaped(n)
      modifies this
      ensures Valid() && id == old(numPages) && numPages == id + 1
      ensures pages == old(pages)[id := PageOf(n)] && Extends(old(pages), pages)
    {
      id := Allocate();
      var p := EncodeTo(n);
      WritePage(id, p);
    }
  }

  /** A page reads back as it was last written, whatever other pages were written since; a page
      that was never written reads as an error. */
  method ReadAfterWrites(store: Store, id: PageId, p: Page, other: PageId, q: Page, never: PageId)
    returns (r: Result<Page>, missing: Result<Page>)
    requires store.Valid() && id < store.numPages && other < store.numPages && LinkAscends(id, p) && LinkAscends(other, q)
    requires id != other && never !in store.pages && never != id && never != other
    modifies store
    ensures store.Valid() && r == Ok(p) && missing == Err
  {
    store.WritePage(id, p);
    store.WritePage(other, q);
    r := store.ReadPage(id);
    missing := store.ReadPage(never);
  }

  // ---- Overflow chains ----

  const OVERFLOW_HEADER := 12
  const CHUNK := 4052

  function ChainPage(next: PageId, data: bytes): Page {
    Page(OverflowPage, LE(next, 8) + LE(|data|, 4) + data)
  }

  function NextOf(p: Page): PageId
    requires |p.payload| >= OVERFLOW_HEADER
  {
    FromLE(p.payload[..8])
  }

  function DataOf(p: Page): Option<bytes>
    requires |p.payload| >= OVERFLOW_HEADER
  {
    var len := FromLE(p.payload[8..12]);
    if OVERFLOW_HEADER + len > |p.payload| then None else Some(p.payload[OVERFLOW_HEADER..OVERFLOW_HEADER + len])
  }

  /** Every overflow page points to a page allocated after it, so following links comes to an end. */
  ghost predicate LinkAscends(id: PageId, p: Page) {
    p.ptype == OverflowPage ==> |p.payload| >= OVERFLOW_HEADER && NextOf(p) > id
  }

  ghost predicate LinksAscend(pages: Pages) {
    forall id :: id in pages ==> LinkAscends(id, pages[id])
  }

  /** The value spelled by the chain that starts at `id`; None where reading it is an error. */
  ghost function ReadChain(pages: Pages, id: PageId): Option<bytes>
    decreases INVALID - id
  {
    if id == INVALID then Some([])
    else if id > INVALID || id !in pages || pages[id].ptype != OverflowPage || |pages[id].payload| < OVERFLOW_HEADER then None
    else
      match DataOf(pages[id])
      case None => None
      case Some(data) =>
        var next := NextOf(pages[id]);
        if next <= id || next > INVALID then None
        else
          match ReadChain(pages, next)
          case None => None
          case Some(rest) => Some(data + rest)
  }

  /** An overflow page with room for the bytes it announces, which leads to a later page or to none. */
  ghost predicate Link(pages: Pages, id: PageId, data: bytes, next: PageId) {
    && id < INVALID && id in pages && pages[id].ptype == OverflowPage
    && var b := pages[id].payload;
    && |b| >= 12 && 12 + FromLE(b[8..12]) <= |b| && data == b[12..12 + FromLE(b[8..12])]
    && FromLE(b[..8]) == next && next > id
  }

  function IdAt(ids: seq<PageId>, i: nat): PageId {
    if i < |ids| then ids[i] else INVALID
  }

  /** Pages that spell a value, each with its part of it; the last leads to none. */
  ghost predicate Spells(pages: Pages, ids: seq<PageId>, chunks: seq<bytes>) {
    |ids| == |chunks| && forall i :: 0 <= i < |ids| ==> Link(pages, ids[i], chunks[i], IdAt(ids, i + 1))
  }

  lemma LinkIs(pages: Pages, id: PageId, data: bytes, next: PageId)
    ensures Link(pages, id, data, next) <==>
              && id < INVALID && id in pages && pages[id].ptype == OverflowPage && |pages[id].payload| >= OVERFLOW_HEADER
              && DataOf(pages[id]) == Some(data) && NextOf(pages[id]) == next && next > id
  {
    hide FromLE;
  }

  lemma SpellsTail(pages: Pages, ids: seq<PageId>, chunks: seq<bytes>)
    requires Spells(pages, ids, chunks) && ids != []
    ensures Link(pages, ids[0], chunks[0], IdAt(ids[1..], 0)) && Spells(pages, ids[1..], chunks[1..])
  {
    hide Link;
    forall i | 0 <= i < |ids| - 1
      ensures Link(pages, ids[1..][i], chunks[1..][i], IdAt(ids[1..], i + 1))
    {
      assert Link(pages, ids[i + 1], chunks[i + 1], IdAt(ids, i + 2));
    }
  }

  lemma SpellsMore(pages: Pages, id: PageId, ids: seq<PageId>, data: bytes, chunks: seq<bytes>)
    requires Spells(pages, ids, chunks) && Link(pages, id, data, IdAt(ids, 0))
    ensures Spells(pages, [id] + ids, [data] + chunks)
  {
    hide Link;
    var ids', chunks' := [id] + ids, [data] + chunks;
    forall i | 0 <= i < |ids'|
      ensures Link(pages, ids'[i], chunks'[i], IdAt(ids', i + 1))
    {
      assert i > 0 ==> Link(pages, ids[i - 1], chunks[i - 1], IdAt(ids, i));
    }
  }

  lemma {:induction false} SpelledIsRead(pages: Pages, ids: seq<PageId>, chunks: seq<bytes>)
    requires Spells(pages, ids, chunks)
    ensures ReadChain(pages, IdAt(ids, 0)) == Some(Join(chunks))
    decreases |ids|
  {
    hide Link, DataOf, NextOf;
    if ids != [] {
      SpellsTail(pages, ids, chunks);
      SpelledIsRead(pages, ids[1..], chunks[1..]);
      LinkIs(pages, ids[0], chunks[0], IdAt(ids[1..], 0));
      NextIsAnId(pages[ids[0]]);
    }
  }

  lemma {:induction false} ReadIsSpelled(pages: Pages, id: PageId) returns (ids: seq<PageId>, chunks: seq<bytes>)
    requires ReadChain(pages, id).Some?
    ensures Spells(pages, ids, chunks) && IdAt(ids, 0) == id && ReadChain(pages, id) == Some(Join(chunks))
    decreases INVALID - id
  {
    hide Link, DataOf, NextOf;
    if id == INVALID {
      return [], [];
    }
    var data := DataOf(pages[id]).value;
    var rest, more := ReadIsSpelled(pages, NextOf(pages[id]));
    LinkIs(pages, id, data, NextOf(pages[id]));
    SpellsMore(pages, id, rest, data, more);
    ids, chunks := [id] + rest, [data] + more;
  }

  /** Reading a chain gives a value if and only if pages from the given one on spell it. */
  lemma ReadsWhatIsSpelled(pages: Pages, id: PageId, value: bytes)
    ensures ReadChain(pages, id) == Some(value) <==>
            exists ids, chunks :: Spells(pages, ids, chunks) && IdAt(ids, 0) == id && Join(chunks) == value
  {
    hide Spells, ReadChain, Join;
    if ReadChain(pages, id) == Some(value) {
      var ids, chunks := ReadIsSpelled(pages, id);
    }
    forall ids, chunks | Spells(pages, ids, chunks) && IdAt(ids, 0) == id && Join(chunks) == value
      ensures ReadChain(pages, id) == Some(value)
    {
      SpelledIsRead(pages, ids, chunks);
    }
  }

  lemma ChainPageFields(next: PageId, data: bytes)
    requires next <= INVALID && |data| <= CHUNK
    ensures NextOf(ChainPage(next, data)) == next && DataOf(ChainPage(next, data)) == Some(data)
  {
    Widths();
    hide LE, FromLE, Pow256;
    var payload := LE(next, 8) + LE(|data|, 4) + data;
    Fields(LE(next, 8), LE(|data|, 4), data);
    assert payload[OVERFLOW_HEADER..OVERFLOW_HEADER + |data|] == payload[OVERFLOW_HEADER..];
    LERoundTrip(next, 8);
    LERoundTrip(|data|, 4);
  }

  lemma NextIsAnId(p: Page)
    requires |p.payload| >= OVERFLOW_HEADER
    ensures NextOf(p) <= INVALID
  {
    Widths();
    assert |p.payload[..8]| == 8;
  }

  function Join(chunks: seq<bytes>): bytes {
    if chunks == [] then [] else chunks[0] + Join(chunks[1..])
  }

  function PageCount(len: nat): (n: nat)
    ensures n >= 1
  {
    if len == 0 then 1 else (len + CHUNK - 1) / CHUNK
  }

  /** The id the i-th of `n` chain pages, allocated from `first` on, points to. */
  function NextId(first: PageId, n: nat, i: nat): PageId {
    if i + 1 < n then first + i + 1 else INVALID
  }

  ghost predicate HoldsPage(pages: Pages, first: PageId, chunks: seq<bytes>, i: nat) {
    i < |chunks| && first + i in pages && pages[first + i] == ChainPage(NextId(first, |chunks|, i), chunks[i])
  }

  ghost predicate HoldsChain(pages: Pages, first: PageId, chunks: seq<bytes>, upTo: nat) {
    forall i :: 0 <= i < upTo ==> HoldsPage(pages, first, chunks, i)
  }

  lemma {:induction false} ChainSpells(pages: Pages, first: PageId, chunks: seq<bytes>, i: nat)
    requires i < |chunks| && first + |chunks| <= INVALID
    requires HoldsChain(pages, first, chunks, |chunks|)
    requires forall j :: 0 <= j < |chunks| ==> |chunks[j]| <= CHUNK
    ensures ReadChain(pages, first + i) == Some(Join(chunks[i..]))
    decreases |chunks| - i
  {
    var next := NextId(first, |chunks|, i);
    assert HoldsPage(pages, first, chunks, i);
    ChainPageFields(next, chunks[i]);
    TakeNext(chunks, i);
    hide NextOf, DataOf;
    if i + 1 < |chunks| {
      ChainSpells(pages, first, chunks, i + 1);
    } else {
      Whole(chunks);
      assert ReadChain(pages, INVALID) == Some([]);
    }
  }

  /** Splits a value into the chunks that each fill one page; an empty value still takes one. */
  method Split(val: bytes) returns (chunks: seq<bytes>)
    ensures |chunks| == PageCount(|val|) == if |val| == 0 then 1 else (|val| + 4051) / 4052
    ensures forall i :: 0 <= i < |chunks| ==> |chunks[i]| <= 4052 && (i + 1 < |chunks| ==> |chunks[i]| == 4052)
    ensures Join(chunks) == val
  {
    chunks := [];
    var off := 0;
    while off < |val|
      invariant off == (if off < |val| then CHUNK * |chunks| else off)
      invariant off >= |val| ==> |chunks| == (|val| + CHUNK - 1) / CHUNK
      invariant forall i :: 0 <= i < |chunks| ==> |chunks[i]| <= CHUNK && (i + 1 < |chunks| || off < |val| ==> |chunks[i]| == CHUNK)
      invariant Join(chunks) == val[..if off < |val| then off else |val|]
    {
      var end := if off + CHUNK > |val| then |val| else off + CHUNK;
      JoinSnoc(chunks, val[off..end]);
      assert val[..end] == val[..off] + val[off..end];
      chunks := chunks + [val[off..end]];
      off := off + CHUNK;
    }
    if |chunks| == 0 {
      chunks := [[]];
    }
    Whole(val);
  }

  lemma {:induction false} JoinSnoc(chunks: seq<bytes>, last: bytes)
    ensures Join(chunks + [last]) == Join(chunks) + last
  {
    AppendTail(chunks, [last]);
    if chunks == [] {
      assert Join([last]) == last + Join([]);
    } else {
      JoinSnoc(chunks[1..], last);
    }
  }

  method AllocateAll(store: Store, n: nat) returns (ids: seq<PageId>)
    requires store.Valid()
    modifies store`numPages
    ensures store.Valid() && |ids| == n && store.numPages == old(store.numPages) + n
    ensures forall j :: 0 <= j < n ==> ids[j] == old(store.numPages) + j
  {
    ids := [];
    while |ids| < n
      invariant |ids| <= n && store.Valid() && store.numPages == old(store.numPages) + |ids|
      invariant forall j :: 0 <= j < |ids| ==> ids[j] == old(store.numPages) + j
      decreases n - |ids|
    {
      var id := store.Allocate();
      ids := ids + [id];
    }
  }

  /** Spills a value over fresh pages; reading the chain back gives the value, whatever its length. */
  method WriteOverflow(store: Store, val: bytes) returns (head: PageId)
    requires store.Valid() && store.numPages + PageCount(|val|) <= INVALID
    modifies store
    ensures store.Valid() && Extends(old(store.pages), store.pages)
    ensures head == old(store.numPages) && store.numPages == head + PageCount(|val|)
    ensures ReadChain(store.pages, head) == Some(val)
  {
    hide ChainPage, NextOf, DataOf, HoldsChain, Join, PageCount, ReadChain, Extends;
    var chunks := Split(val);
    var ids := AllocateAll(store, |chunks|);
    head := ids[0];
    var i := 0;
    NothingHeldYet(store.pages, head, chunks);
    while i < |chunks|
      invariant 0 <= i <= |chunks| && store.Valid() && store.numPages == head + |chunks|
      invariant Extends(old(store.pages), store.pages)
      invariant HoldsChain(store.pages, head, chunks, i)
    {
      var next := if i + 1 < |ids| then ids[i + 1] else INVALID;
      ChainPageFields(next, chunks[i]);
      ChainPageSize(next, chunks[i]);
      HoldsNext(old(store.pages), store.pages, head, chunks, i);
      store.WritePage(ids[i], ChainPage(next, chunks[i]));
      i := i + 1;
    }
    ChainSpells(store.pages, head, chunks, 0);
    Whole(chunks);
  }

  lemma NothingHeldYet(pages: Pages, first: PageId, chunks: seq<bytes>)
    ensures HoldsChain(pages, first, chunks, 0) && Extends(pages, pages)
  {
  }

  lemma HoldsNext(before: Pages, pages: Pages, first: PageId, chunks: seq<bytes>, i: nat)
    requires i < |chunks| && HoldsChain(pages, first, chunks, i)
    requires Extends(before, pages) && first + i !in before
    ensures var pages' := pages[first + i := ChainPage(NextId(first, |chunks|, i), chunks[i])];
            HoldsChain(pages', first, chunks, i + 1) && Extends(before, pages')
  {
    var pages' := pages[first + i := ChainPage(NextId(first, |chunks|, i), chunks[i])];
    hide ChainPage, NextId;
    forall j: nat | j < i + 1
      ensures HoldsPage(pages', first, chunks, j)
    {
      assert j < i ==> HoldsPage(pages, first, chunks, j);
    }
  }

  lemma ChainPageSize(next: PageId, data: bytes)
    ensures ChainPage(next, data).ptype == OverflowPage
    ensures |ChainPage(next, data).payload| == OVERFLOW_HEADER + |data|
  {
  }

  method ReadOverflow(store: Store, head: PageId) returns (r: Result<bytes>)
    requires store.Valid() && head <= INVALID
    ensures r == match ReadChain(store.pages, head) case Some(v) => Ok(v) case None => Err
  {
    hide NextOf, DataOf;
    var out: bytes := [];
    var id := head;
    ghost var goal := ReadChain(store.pages, head);
    BeforeNothing(goal);
    while id != INVALID
      invariant id <= INVALID
      invariant goal == Before(out, ReadChain(store.pages, id))
      decreases INVALID - id
    {
      var p := store.ReadPage(id);
      if p.Err? || p.value.ptype != OverflowPage {
        return Err;
      }
      assert LinkAscends(id, p.value);
      var data := DataOf(p.value);
      if data == None {
        return Err;
      }
      NextIsAnId(p.value);
      var next := NextOf(p.value);
      ChainStep(store.pages, id, data.value);
      BeforeAppend(out, data.value, ReadChain(store.pages, next));
      out := out + data.value;
      id := next;
    }
    BeforeEnds(out);
    return Ok(out);
  }

  lemma ChainStep(pages: Pages, id: PageId, data: bytes)
    requires id < INVALID && id in pages && pages[id].ptype == OverflowPage && LinkAscends(id, pages[id])
    requires DataOf(pages[id]) == Some(data)
    ensures ReadChain(pages, id) == Before(data, ReadChain(pages, NextOf(pages[id])))
  {
    NextIsAnId(pages[id]);
  }

  lemma BeforeAppend<T>(done: seq<T>, x: seq<T>, rest: Option<seq<T>>)
    ensures Before(done, Before(x, rest)) == Before(done + x, rest)
  {
    if rest.Some? {
      Assoc(done, x, rest.value);
    }
  }

  /** A chain read in a store reads the same after any number of further page writes. */
  lemma {:induction false} ChainStable(a: Pages, b: Pages, id: PageId)
    requires Extends(a, b) && ReadChain(a, id).Some?
    ensures ReadChain(b, id) == ReadChain(a, id)
    decreases INVALID - id
  {
    hide NextOf, DataOf;
    if id != INVALID {
      ChainStable(a, b, NextOf(a[id]));
    }
  }

  // ---- Leaf entries and the values they stand for ----

  ghost function ValueOf(pages: Pages, e: LeafEntry): Option<bytes> {
    match e
    case Inline(_, value) => Some(value)
    case Spilled(_, head, _) => ReadChain(pages, head)
  }

  method Materialize(store: Store, e: LeafEntry) returns (r: Result<bytes>)
    requires store.Valid() && EntryEncodable(e)
    ensures r == match ValueOf(store.pages, e) case Some(v) => Ok(v) case None => Err
  {
    match e
    case Inline(_, value) => r := Ok(value);
    case Spilled(_, head, _) => r := ReadOverflow(store, head);
  }

  /** Values up to MAX_INLINE stay in the leaf, longer ones are spilled. */
  method MakeLeafEntry(store: Store, key: bytes, value: bytes) returns (e: LeafEntry)
    requires store.Valid() && store.numPages + PageCount(|value|) <= INVALID && |value| <= INVALID
    modifies store
    ensures store.Valid() && Extends(old(store.pages), store.pages)
    ensures old(store.numPages) <= store.numPages <= old(store.numPages) + PageCount(|value|)
    ensures e.key == key && ValueOf(store.pages, e) == Some(value)
    ensures e.Spilled? <==> |value| > 512
    ensures e.Spilled? ==> e.head <= INVALID && e.size == |value|
  {
    if |value| <= MAX_INLINE {
      return Inline(key, value);
    }
    var head := WriteOverflow(store, value);
    return Spilled(key, head, |value|);
  }
}
