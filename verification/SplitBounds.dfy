/**
 * Exactly which entry sizes make splitting by count safe (split.go promises it for all), and that
 * under safe sizes insertion keeps every page of a tree of any height within its body.
 */
module SplitBounds {
  import opened Bytes
  import opened Seqs
  import opened Sorting
  import opened KVLists
  import opened Shapes
  import opened ShapeOps
  import opened Fitting
  import opened Halves
  import Nodes

  /** The room for entries in a leaf page, and for separators in a branch page. */
  const ROOM: nat := Nodes.BODY_SIZE - 2
  const KEY_ROOM: nat := Nodes.BODY_SIZE - 10

  function SizesOf(kvs: seq<KV>): seq<nat> {
    seq(|kvs|, i requires 0 <= i < |kvs| => KvSize(kvs[i]))
  }

  function KeySizes(keys: seq<bytes>): seq<nat> {
    seq(|keys|, i requires 0 <= i < |keys| => 10 + |keys[i]|)
  }

  lemma {:induction false} SizesSum(kvs: seq<KV>)
    ensures Sum(SizesOf(kvs)) == KvsSize(kvs)
  {
    if kvs != [] {
      SizesSum(kvs[1..]);
      assert SizesOf(kvs)[1..] == SizesOf(kvs[1..]);
    }
  }

  lemma {:induction false} KeySizesSum(keys: seq<bytes>)
    ensures Sum(KeySizes(keys)) == KeysSize(keys)
  {
    if keys != [] {
      KeySizesSum(keys[1..]);
      assert KeySizes(keys)[1..] == KeySizes(keys[1..]);
    }
  }

  lemma SizesTake(kvs: seq<KV>, i: nat)
    requires i <= |kvs|
    ensures Sum(SizesOf(kvs)[..i]) == KvsSize(kvs[..i]) && Sum(SizesOf(kvs)[i..]) == KvsSize(kvs[i..])
  {
    assert SizesOf(kvs)[..i] == SizesOf(kvs[..i]) && SizesOf(kvs)[i..] == SizesOf(kvs[i..]);
    SizesSum(kvs[..i]);
    SizesSum(kvs[i..]);
  }

  lemma KeySizesTake(keys: seq<bytes>, i: nat)
    requires i <= |keys|
    ensures Sum(KeySizes(keys)[..i]) == KeysSize(keys[..i]) && Sum(KeySizes(keys)[i..]) == KeysSize(keys[i..])
  {
    assert KeySizes(keys)[..i] == KeySizes(keys[..i]) && KeySizes(keys)[i..] == KeySizes(keys[i..]);
    KeySizesSum(keys[..i]);
    KeySizesSum(keys[i..]);
  }

  // ---- Leaves ----

  ghost predicate Sized(kvs: seq<KV>, least: nat, most: nat) {
    forall i :: 0 <= i < |kvs| ==> least <= KvSize(kvs[i]) <= most
  }

  lemma {:induction false} KvsSizeOfSlices(kvs: seq<KV>, r: nat, e: nat)
    requires r <= e <= |kvs|
    ensures KvsSize(kvs[..r]) + KvsSize(kvs[e..]) <= KvsSize(kvs)
  {
    Parts(kvs, r, e);
    KvsSizeAppend(kvs[..r] + kvs[r..e], kvs[e..]);
    KvsSizeAppend(kvs[..r], kvs[r..e]);
  }

  /** A leaf that fitted and received one entry was fitting without that entry. */
  lemma PutFittedWithout(kvs: seq<KV>, kv: KV)
    requires Small(Tip(kvs))
    ensures var r := Rank(kvs, kv.key); var t := PutAt(kvs, kv);
            r < |t| && t[r] == kv && FittedWithout(SizesOf(t), r, ROOM)
  {
    var r, e := Rank(kvs, kv.key), EndRank(kvs, kv.key);
    var t := PutAt(kvs, kv);
    Fields(kvs[..r], [kv], kvs[e..]);
    SizesTake(t, r);
    SizesTake(t, r + 1);
    KvsSizeOfSlices(kvs, r, e);
  }

  lemma PutSized(kvs: seq<KV>, kv: KV, least: nat, most: nat)
    requires Sized(kvs, least, most) && least <= KvSize(kv) <= most
    ensures Sized(PutAt(kvs, kv), least, most)
  {
    hide KvSize, Rank;
    var r, e := Rank(kvs, kv.key), EndRank(kvs, kv.key);
    var t := PutAt(kvs, kv);
    forall i | 0 <= i < |t|
      ensures least <= KvSize(t[i]) <= most
    {
      assert t[i] == if i < r then kvs[i] else if i == r then kv else kvs[i - r - 1 + e];
    }
  }

  lemma SafeLeafInsert(kvs: seq<KV>, kv: KV, least: nat, most: nat)
    requires 0 < most <= ROOM && Safe(least, most, ROOM)
    requires Sized(kvs, least, most) && least <= KvSize(kv) <= most && Small(Tip(kvs))
    ensures GrownSmall(Insert(Tip(kvs), kv))
  {
    var r, t := Rank(kvs, kv.key), PutAt(kvs, kv);
    PutFittedWithout(kvs, kv);
    PutSized(kvs, kv, least, most);
    GrownLeafLoads(kvs, kv);
    hide PutAt, Safe, KvSize;
    if !Small(Tip(t)) {
      assert Between(SizesOf(t), least, most);
      SafeHalvesFit(SizesOf(t), r, least, most, ROOM);
      SizesTake(t, |t| / 2);
    }
  }

  /** Keys for the witness: ordered by their first two bytes, padded to the wanted length. */
  function KeyOfLength(i: nat, n: nat): (k: bytes)
    requires n >= 2
    ensures |k| == n
  {
    BE(i, 2) + seq(n - 2, _ => 0)
  }

  lemma KeysOfLengthAscend(i: nat, j: nat, a: nat, b: nat)
    requires i < j < 0x1_0000 && a >= 2 && b >= 2
    ensures Less(KeyOfLength(i, a), KeyOfLength(j, b))
  {
    PowersOf256();
    BEMonotone(i, j, 2);
    LessExtend(BE(i, 2), BE(j, 2), seq(a - 2, _ => 0), seq(b - 2, _ => 0));
  }

  lemma {:induction false} LessExtend(a: bytes, b: bytes, x: bytes, y: bytes)
    requires |a| == |b| && Less(a, b)
    ensures Less(a + x, b + y)
  {
    AppendTail(a, x);
    AppendTail(b, y);
    if a[0] == b[0] {
      LessExtend(a[1..], b[1..], x, y);
    }
  }

  /** Keys of at most `cap` bytes, and values that are kept inline. */
  ghost predicate Capped(kvs: seq<KV>, cap: nat) {
    forall i :: 0 <= i < |kvs| ==> |kvs[i].key| <= cap && |kvs[i].value| <= Nodes.MAX_INLINE
  }

  /** An entry of the wanted size: what the key has no room for becomes the value. */
  function EntryOfSize(i: nat, size: nat, cap: nat): (kv: KV)
    requires cap >= 2 && 9 <= size <= 7 + cap + Nodes.MAX_INLINE
    ensures KvSize(kv) == size && |kv.key| <= cap && |kv.value| <= Nodes.MAX_INLINE
  {
    var n := if size - 7 <= cap then size - 7 else cap;
    KV(KeyOfLength(i, n), seq(size - 7 - n, _ => 0))
  }

  function EntriesOfSizes(s: seq<nat>, cap: nat): seq<KV>
    requires cap >= 2 && forall i :: 0 <= i < |s| ==> 9 <= s[i] <= 7 + cap + Nodes.MAX_INLINE
  {
    seq(|s|, i requires 0 <= i < |s| => EntryOfSize(i, s[i], cap))
  }

  lemma EntriesOfSizesAre(s: seq<nat>, cap: nat)
    requires cap >= 2 && |s| < 0x1_0000
    requires forall i :: 0 <= i < |s| ==> 9 <= s[i] <= 7 + cap + Nodes.MAX_INLINE
    ensures var kvs := EntriesOfSizes(s, cap); Sorted(kvs) && SizesOf(kvs) == s && Capped(kvs, cap)
  {
    hide KeyOfLength, KvSize;
    var kvs := EntriesOfSizes(s, cap);
    forall i, j | 0 <= i < j < |kvs|
      ensures Less(kvs[i].key, kvs[j].key)
    {
      KeysOfLengthAscend(i, j, |kvs[i].key|, |kvs[j].key|);
    }
  }

  lemma {:induction false} RankAtEnd(kvs: seq<KV>, k: bytes)
    requires AllBelow(kvs, k)
    ensures Rank(kvs, k) == |kvs|
  {
    if kvs != [] {
      assert forall i :: 0 <= i < |kvs| - 1 ==> kvs[1..][i] == kvs[i + 1];
      RankAtEnd(kvs[1..], k);
    }
  }

  lemma PutLast(kvs: seq<KV>)
    requires kvs != [] && Sorted(kvs)
    ensures PutAt(kvs[..|kvs| - 1], kvs[|kvs| - 1]) == kvs
  {
    var init, last := kvs[..|kvs| - 1], kvs[|kvs| - 1];
    RankAtEnd(init, last.key);
    Whole(init);
  }

  /** Outside the safe sizes some leaf that fits does not survive one more entry, whatever the limit
      on keys that leaves entries of those sizes possible. */
  lemma UnsafeLeafInsert(least: nat, most: nat, cap: nat)
    returns (kvs: seq<KV>, kv: KV)
    requires 9 <= least <= most <= ROOM && !Safe(least, most, ROOM) && 2 <= cap && most <= 7 + cap + Nodes.MAX_INLINE
    ensures Sorted(kvs) && Sized(kvs, least, most) && least <= KvSize(kv) <= most && Small(Tip(kvs))
    ensures Capped(kvs + [kv], cap)
    ensures !GrownSmall(Insert(Tip(kvs), kv))
  {
    var s := UnsafeHalves(least, most, ROOM);
    hide *;
    SizesFrom(s, least, most, cap);
    var all := EntriesOfSizes(s, cap);
    EntriesOfSizesAre(s, cap);
    SizedBySizes(all, s, least, most);
    UnsafeByLast(all, s);
    InitAndLast(all);
    kvs, kv := all[..|s| - 1], all[|s| - 1];
  }

  lemma InitAndLast<T>(s: seq<T>)
    requires s != []
    ensures s[..|s| - 1] + [s[|s| - 1]] == s
  {
  }

  lemma SizesFrom(s: seq<nat>, least: nat, most: nat, cap: nat)
    requires Between(s, least, most) && 9 <= least && most <= 7 + cap + Nodes.MAX_INLINE
    ensures forall i :: 0 <= i < |s| ==> 9 <= s[i] <= 7 + cap + Nodes.MAX_INLINE
  {
  }

  lemma SizedBySizes(all: seq<KV>, s: seq<nat>, least: nat, most: nat)
    requires SizesOf(all) == s && Between(s, least, most) && s != []
    ensures |all| == |s| && Sized(all[..|s| - 1], least, most) && least <= KvSize(all[|s| - 1]) <= most
    ensures forall i :: 0 <= i < |s| ==> s[i] >= least
  {
    hide KvSize;
    assert forall i :: 0 <= i < |s| ==> KvSize(all[i]) == SizesOf(all)[i];
  }

  lemma UnsafeByLast(all: seq<KV>, s: seq<nat>)
    requires Sorted(all) && SizesOf(all) == s && |all| == |s| >= 2
    requires FittedWithout(s, |s| - 1, ROOM) && Sum(s) > ROOM && Sum(s[|s| / 2..]) > ROOM
    ensures Sorted(all[..|s| - 1]) && Small(Tip(all[..|s| - 1]))
    ensures !GrownSmall(Insert(Tip(all[..|s| - 1]), all[|s| - 1]))
  {
    hide *;
    SizesOfLast(all, s);
    PutLast(all);
    LargeRightHalf(all);
    InsertIntoTip(all[..|s| - 1], all[|s| - 1]);
    RoomForInit(all, s);
  }

  lemma InsertIntoTip(kvs: seq<KV>, kv: KV)
    ensures Insert(Tip(kvs), kv) == MaybeSplit(Tip(PutAt(kvs, kv)))
  {
  }

  lemma RoomForInit(all: seq<KV>, s: seq<nat>)
    requires Sorted(all) && SizesOf(all) == s && |s| >= 2 && FittedWithout(s, |s| - 1, ROOM)
    ensures |all| == |s| && Sorted(all[..|s| - 1]) && Small(Tip(all[..|s| - 1]))
  {
    SizesOfLast(all, s);
    hide SizesOf, Sum, KvsSize;
  }

  lemma SizesOfLast(all: seq<KV>, s: seq<nat>)
    requires SizesOf(all) == s && s != []
    ensures Sum(s) == KvsSize(all) && Sum(s[|s| / 2..]) == KvsSize(all[|s| / 2..])
    ensures Sum(s[..|s| - 1]) == KvsSize(all[..|s| - 1]) && Sum(s[|s| - 1 + 1..]) == 0
  {
    SizesTake(all, |s| - 1);
    SizesTake(all, |s| / 2);
    SizesSum(all);
  }

  lemma LargeRightHalf(all: seq<KV>)
    requires |all| >= 2 && KvsSize(all) > ROOM && KvsSize(all[|all| / 2..]) > ROOM
    ensures !GrownSmall(MaybeSplit(Tip(all)))
  {
    hide KvsSize;
  }

  /**
   * Split bound, exactly: splitting by count keeps both halves within the page for all leaves with
   * entry sizes from `least` to `most` if and only if those two bounds are safe.
   */
  lemma SplitFitsExactly(least: nat, most: nat)
    requires 9 <= least <= most <= ROOM
    ensures Safe(least, most, ROOM) <==>
            forall kvs, kv :: Sorted(kvs) && Sized(kvs, least, most) && least <= KvSize(kv) <= most && Small(Tip(kvs))
                              ==> GrownSmall(Insert(Tip(kvs), kv))
  {
    if Safe(least, most, ROOM) {
      hide Insert, GrownSmall;
      forall kvs, kv | Sorted(kvs) && Sized(kvs, least, most) && least <= KvSize(kv) <= most && Small(Tip(kvs))
        ensures GrownSmall(Insert(Tip(kvs), kv))
      {
        SafeLeafInsert(kvs, kv, least, most);
      }
    } else {
      var kvs, kv := UnsafeLeafInsert(least, most, most);
    }
  }

  /** The engine's own limits, keys up to 267 bytes and entries of 18 to 786, are not safe: some
      ordered leaf within them that fits its page overflows when one more such entry goes in. */
  lemma EngineSizesUnsafe() returns (kvs: seq<KV>, kv: KV)
    ensures Sorted(kvs) && Small(Tip(kvs)) && !GrownSmall(Insert(Tip(kvs), kv))
    ensures Sized(kvs + [kv], 18, 786)
    ensures forall e :: e in kvs + [kv] ==> |e.key| <= 267 && |e.value| <= 512
  {
    kvs, kv := UnsafeLeafInsert(18, 786, 267);
    hide KvSize, Insert, GrownSmall;
    assert forall e :: e in kvs + [kv] ==> exists i :: 0 <= i < |kvs + [kv]| && (kvs + [kv])[i] == e;
  }

  // ---- Trees ----

  datatype Limits = Limits(minEntry: nat, maxEntry: nat, minKey: nat, maxKey: nat)

  predicate SafeLimits(d: Limits) {
    && 0 < d.maxEntry <= ROOM && Safe(d.minEntry, d.maxEntry, ROOM)
    && d.maxKey + 20 <= Nodes.BODY_SIZE && BranchSafe(10 + d.minKey, 10 + d.maxKey, KEY_ROOM)
  }

  predicate KeyObeys(k: bytes, d: Limits) {
    d.minKey <= |k| <= d.maxKey
  }

  predicate Obeys(kv: KV, d: Limits) {
    d.minEntry <= KvSize(kv) <= d.maxEntry && KeyObeys(kv.key, d)
  }

  ghost predicate AllObey(t: Shape, d: Limits) {
    match t
    case Tip(kvs) => forall i :: 0 <= i < |kvs| ==> Obeys(kvs[i], d)
    case Branch(keys, kids) =>
      && (forall i :: 0 <= i < |keys| ==> KeyObeys(keys[i], d))
      && forall i :: 0 <= i < |kids| ==> AllObey(kids[i], d)
  }

  ghost predicate GrownObeys(g: Grown, d: Limits) {
    match g
    case One(t) => AllObey(t, d)
    case Two(l, sep, r) => AllObey(l, d) && AllObey(r, d) && KeyObeys(sep, d)
  }

  lemma SplitObeys(t: Shape, d: Limits)
    requires AllObey(t, d)
    ensures GrownObeys(MaybeSplit(t), d)
  {
    hide PageSize, Obeys;
    if t.Tip? && |t.kvs| > 0 {
      assert Obeys(t.kvs[|t.kvs| / 2], d);
      assert KeyObeys(t.kvs[|t.kvs| / 2].key, d) by { ObeysKey(t.kvs[|t.kvs| / 2], d); }
    }
  }

  lemma ObeysKey(kv: KV, d: Limits)
    requires Obeys(kv, d)
    ensures KeyObeys(kv.key, d)
  {
  }

  lemma PutObeys(kvs: seq<KV>, kv: KV, d: Limits)
    requires AllObey(Tip(kvs), d) && Obeys(kv, d)
    ensures AllObey(Tip(PutAt(kvs, kv)), d)
  {
    hide Obeys, Rank;
    var r, e := Rank(kvs, kv.key), EndRank(kvs, kv.key);
    var t := PutAt(kvs, kv);
    forall i | 0 <= i < |t|
      ensures Obeys(t[i], d)
    {
      assert t[i] == if i < r then kvs[i] else if i == r then kv else kvs[i - r - 1 + e];
    }
  }

  lemma ReplaceObeys(keys: seq<bytes>, kids: seq<Shape>, ci: nat, g: Grown, d: Limits)
    requires ci <= |keys| && ci < |kids| && AllObey(Branch(keys, kids), d) && GrownObeys(g, d)
    ensures AllObey(Replace(keys, kids, ci, g), d)
  {
    var t := Replace(keys, kids, ci, g);
    forall i | 0 <= i < |t.keys|
      ensures KeyObeys(t.keys[i], d)
    {
      if g.Two? {
        assert t.keys[i] == if i < ci then keys[i] else if i == ci then g.sep else keys[i - 1];
      }
    }
    forall i | 0 <= i < |t.kids|
      ensures AllObey(t.kids[i], d)
    {
      if g.Two? {
        assert t.kids[i] == if i < ci then kids[i] else if i == ci then g.left else if i == ci + 1 then g.right else kids[i - 1];
      }
    }
  }

  lemma SafeBranchInsert(keys: seq<bytes>, kids: seq<Shape>, ci: nat, g: Grown, d: Limits)
    requires ci <= |keys| && |kids| == |keys| + 1 && SafeLimits(d) && Small(Branch(keys, kids))
    requires AllObey(Branch(keys, kids), d) && GrownObeys(g, d)
    ensures GrownSmall(MaybeSplit(Replace(keys, kids, ci, g)))
  {
    hide BranchSafe, FittedWithout, KeysSize, Between;
    if g.Two? {
      var ks := keys[..ci] + [g.sep] + keys[ci..];
      KeyInserted(keys, ci, g.sep, d);
      KeyFittedWithout(keys, ci, g.sep);
      SafeKeysSplit(ks, ci, 10 + d.minKey, 10 + d.maxKey);
      BranchHalves(Replace(keys, kids, ci, g));
    }
  }

  lemma {:induction false} KeysSizeInTwo(keys: seq<bytes>, i: nat)
    requires i <= |keys|
    ensures KeysSize(keys) == KeysSize(keys[..i]) + KeysSize(keys[i..])
  {
    hide KeysSize, Sum;
    KeySizesTake(keys, i);
    KeySizesSum(keys);
    SumSplit(KeySizes(keys), i);
  }

  lemma AroundInserted<T>(s: seq<T>, i: nat, x: T)
    requires i <= |s|
    ensures (s[..i] + [x] + s[i..])[..i] == s[..i] && (s[..i] + [x] + s[i..])[i + 1..] == s[i..]
  {
  }

  lemma KeyFittedWithout(keys: seq<bytes>, ci: nat, sep: bytes)
    requires ci <= |keys| && KeysSize(keys) <= KEY_ROOM
    ensures FittedWithout(KeySizes(keys[..ci] + [sep] + keys[ci..]), ci, KEY_ROOM)
  {
    hide KeysSize, Sum, KeySizes;
    var ks := keys[..ci] + [sep] + keys[ci..];
    AroundInserted(keys, ci, sep);
    KeysSizeInTwo(keys, ci);
    KeySizesTake(ks, ci);
    KeySizesTake(ks, ci + 1);
  }

  lemma KeyInserted(keys: seq<bytes>, ci: nat, sep: bytes, d: Limits)
    requires ci <= |keys| && KeyObeys(sep, d)
    requires forall i :: 0 <= i < |keys| ==> KeyObeys(keys[i], d)
    ensures Between(KeySizes(keys[..ci] + [sep] + keys[ci..]), 10 + d.minKey, 10 + d.maxKey)
  {
    var ks := keys[..ci] + [sep] + keys[ci..];
    forall i | 0 <= i < |ks|
      ensures KeyObeys(ks[i], d)
    {
      assert ks[i] == if i < ci then keys[i] else if i == ci then sep else keys[i - 1];
    }
  }

  lemma BranchHalves(t: Shape)
    requires t.Branch? && |t.kids| == |t.keys| + 1 && t.keys != []
    requires var ks := t.keys;
             KeysSize(ks) <= KEY_ROOM
             || (KeysSize(ks[..|ks| / 2]) <= KEY_ROOM && KeysSize(ks[|ks| / 2 + 1..]) <= KEY_ROOM)
    ensures GrownSmall(MaybeSplit(t))
  {
    hide KeysSize;
  }

  lemma SafeKeysSplit(ks: seq<bytes>, at: nat, least: nat, most: nat)
    requires 0 < most <= KEY_ROOM && BranchSafe(least, most, KEY_ROOM)
    requires at < |ks| && FittedWithout(KeySizes(ks), at, KEY_ROOM) && Between(KeySizes(ks), least, most)
    ensures KeysSize(ks[..|ks| / 2]) <= KEY_ROOM && KeysSize(ks[|ks| / 2 + 1..]) <= KEY_ROOM
  {
    hide BranchSafe, FittedWithout, KeysSize, Sum;
    SafeOuterHalvesFit(KeySizes(ks), at, least, most, KEY_ROOM);
    KeySizesTake(ks, |ks| / 2);
    KeySizesTake(ks, |ks| / 2 + 1);
  }

  // ---- The exact bound for branches ----

  /** A branch that fits its page, and a child of it that was split, in order and within the sizes. */
  ghost predicate BranchInsert(keys: seq<bytes>, kids: seq<Shape>, ci: nat, g: Grown, least: nat, most: nat) {
    && |kids| == |keys| + 1 && ci <= |keys| && Small(Branch(keys, kids)) && g.Two?
    && Ascending(keys[..ci] + [g.sep] + keys[ci..])
    && Between(KeySizes(keys[..ci] + [g.sep] + keys[ci..]), least, most)
  }

  lemma SafeBranchSplit(keys: seq<bytes>, kids: seq<Shape>, ci: nat, g: Grown, least: nat, most: nat)
    requires 0 < most <= KEY_ROOM && BranchSafe(least, most, KEY_ROOM) && BranchInsert(keys, kids, ci, g, least, most)
    ensures GrownSmall(MaybeSplit(Replace(keys, kids, ci, g)))
  {
    hide BranchSafe, FittedWithout, KeysSize, Between, Ascending;
    KeyFittedWithout(keys, ci, g.sep);
    SafeKeysSplit(keys[..ci] + [g.sep] + keys[ci..], ci, least, most);
    BranchHalves(Replace(keys, kids, ci, g));
  }

  function KeysOfSizes(s: seq<nat>): seq<bytes>
    requires forall i :: 0 <= i < |s| ==> s[i] >= 12
  {
    seq(|s|, i requires 0 <= i < |s| => KeyOfLength(i, s[i] - 10))
  }

  lemma KeysOfSizesAre(s: seq<nat>)
    requires |s| < 0x1_0000 && forall i :: 0 <= i < |s| ==> s[i] >= 12
    ensures Ascending(KeysOfSizes(s)) && KeySizes(KeysOfSizes(s)) == s
  {
    hide KeyOfLength;
    var ks := KeysOfSizes(s);
    forall i, j | 0 <= i < j < |ks|
      ensures Less(ks[i], ks[j])
    {
      KeysOfLengthAscend(i, j, |ks[i]|, |ks[j]|);
    }
  }

  /** Outside the safe sizes some branch that fits does not survive the split of a child. */
  lemma UnsafeBranchSplit(least: nat, most: nat) returns (keys: seq<bytes>, kids: seq<Shape>, ci: nat, g: Grown)
    requires 12 <= least <= most <= KEY_ROOM && !BranchSafe(least, most, KEY_ROOM)
    ensures BranchInsert(keys, kids, ci, g, least, most) && !GrownSmall(MaybeSplit(Replace(keys, kids, ci, g)))
  {
    var s;
    s, ci := UnsafeOuterHalves(least, most, KEY_ROOM);
    hide *;
    AtLeast(s, least, most);
    var ks := KeysOfSizes(s);
    KeysOfSizesAre(s);
    keys := ks[..ci] + ks[ci + 1..];
    kids := seq(|keys| + 1, _ => Tip([]));
    g := Two(Tip([]), ks[ci], Tip([]));
    TakenOut(ks, ci);
    TakenOutFits(ks, s, ci);
    IsBranchInsert(keys, kids, ci, g, ks, least, most);
    LargeLeftHalf(keys, kids, ci, g, ks, s);
  }

  lemma AtLeast(s: seq<nat>, least: nat, most: nat)
    requires Between(s, least, most) && 12 <= least
    ensures forall i :: 0 <= i < |s| ==> s[i] >= 12
  {
  }

  lemma TakenOut<T>(s: seq<T>, i: nat)
    requires i < |s|
    ensures var rest := s[..i] + s[i + 1..]; |rest| == |s| - 1 && rest[..i] + [s[i]] + rest[i..] == s
  {
  }

  lemma TakenOutFits(ks: seq<bytes>, s: seq<nat>, ci: nat)
    requires KeySizes(ks) == s && ci < |s| && FittedWithout(s, ci, KEY_ROOM)
    ensures |ks| == |s| && KeysSize(ks[..ci] + ks[ci + 1..]) <= KEY_ROOM
    ensures KeysSize(ks) == Sum(s) && KeysSize(ks[..|s| / 2]) == Sum(s[..|s| / 2])
  {
    var rest := ks[..ci] + ks[ci + 1..];
    assert rest[..ci] == ks[..ci] && rest[ci..] == ks[ci + 1..];
    KeysSizeInTwo(rest, ci);
    KeySizesTake(ks, ci);
    KeySizesTake(ks, ci + 1);
    KeySizesTake(ks, |s| / 2);
    KeySizesSum(ks);
  }

  lemma IsBranchInsert(keys: seq<bytes>, kids: seq<Shape>, ci: nat, g: Grown, ks: seq<bytes>, least: nat, most: nat)
    requires |kids| == |keys| + 1 && ci <= |keys| && g.Two? && keys[..ci] + [g.sep] + keys[ci..] == ks
    requires KeysSize(keys) <= KEY_ROOM && Ascending(ks) && Between(KeySizes(ks), least, most)
    ensures BranchInsert(keys, kids, ci, g, least, most)
  {
    hide KeysSize, Ascending, Between;
  }

  lemma LargeLeftHalf(keys: seq<bytes>, kids: seq<Shape>, ci: nat, g: Grown, ks: seq<bytes>, s: seq<nat>)
    requires |kids| == |keys| + 1 && ci <= |keys| && g.Two? && keys[..ci] + [g.sep] + keys[ci..] == ks
    requires KeysSize(ks) > KEY_ROOM && KeysSize(ks[..|ks| / 2]) > KEY_ROOM
    ensures !GrownSmall(MaybeSplit(Replace(keys, kids, ci, g)))
  {
    hide KeysSize;
  }

  /** The same for branches, whose middle separator moves up: their bound is weaker, and as exact. */
  lemma BranchSplitFitsExactly(least: nat, most: nat)
    requires 12 <= least <= most <= KEY_ROOM
    ensures BranchSafe(least, most, KEY_ROOM) <==>
            forall keys, kids, ci, g :: BranchInsert(keys, kids, ci, g, least, most) ==>
              GrownSmall(MaybeSplit(Replace(keys, kids, ci, g)))
  {
    hide GrownSmall, MaybeSplit, Replace, BranchSafe, PageSize, Ascending, Between;
    if BranchSafe(least, most, KEY_ROOM) {
      forall keys, kids, ci, g | BranchInsert(keys, kids, ci, g, least, most)
        ensures GrownSmall(MaybeSplit(Replace(keys, kids, ci, g)))
      {
        SafeBranchSplit(keys, kids, ci, g, least, most);
      }
    } else {
      var keys, kids, ci, g := UnsafeBranchSplit(least, most);
    }
  }

  lemma OneKeySize(ks: seq<bytes>)
    requires |ks| == 1
    ensures KeysSize(ks) == 10 + |ks[0]|
  {
    assert ks[1..] == [];
  }

  /**
   * Under safe limits an insertion keeps every page within its body, and the tree within the
   * limits, so this holds over any sequence of insertions and at any height.
   */
  lemma {:induction false} SafeInsert(t: Shape, kv: KV, d: Limits, h: nat, lo: Bound, hi: Bound)
    requires WellFormed(t, h, lo, hi) && PagesFit(t) && AllObey(t, d) && Obeys(kv, d) && SafeLimits(d)
    ensures InsertFits(t, kv) && GrownObeys(Insert(t, kv), d)
    decreases h
  {
    match t
    case Tip(kvs) =>
      SafeLeafInsert(kvs, kv, d.minEntry, d.maxEntry);
      PutObeys(kvs, kv, d);
      SplitObeys(Tip(PutAt(kvs, kv)), d);
    case Branch(keys, kids) =>
      var ci := ChildIndex(keys, kv.key);
      SafeInsert(kids[ci], kv, d, h - 1, LoOf(keys, lo, ci), HiOf(keys, hi, ci));
      var g := Insert(kids[ci], kv);
      hide SafeLimits, PageSize, Obeys;
      SafeBranchInsert(keys, kids, ci, g, d);
      ReplaceObeys(keys, kids, ci, g, d);
      SplitObeys(Replace(keys, kids, ci, g), d);
  }

  lemma SafeInsertRoot(t: Shape, kv: KV, d: Limits, h: nat, lo: Bound, hi: Bound)
    requires WellFormed(t, h, lo, hi) && PagesFit(t) && AllObey(t, d) && Obeys(kv, d) && SafeLimits(d)
    ensures InsertSafe(t, kv) && AllObey(InsertRoot(t, kv), d)
  {
    SafeInsert(t, kv, d, h, lo, hi);
    InsertKeepsFit(t, kv, h, lo, hi);
    hide Insert, InsertFits, KeysSize, Safe;
    match Insert(t, kv)
    case One(_) =>
    case Two(l, sep, r) =>
      OneKeySize([sep]);
  }
}
