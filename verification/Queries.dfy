/** Listing the objects of a class: snapshot and overlay merged, filtered, sorted and cut to a page (engine.QueryObjects). */
module Queries {
  import opened Bytes
  import opened Wrappers
  import opened Seqs
  import opened Sorting
  import opened Keys
  import opened KVLists
  import opened Entries
  import opened Schema
  import opened Overlays

  /** A caller's filter; it may fail on an object. */
  type Filter = bytes -> Result<bool>

  datatype Object = Object(id: int64, data: bytes)

  /** `m` holds exactly the objects of one class. */
  ghost predicate ObjectsOf(m: map<int64, bytes>, db: Db, project: bytes, cls: bytes) {
    forall id: int64 :: Lookup64(m, id) == Lookup(db, ObjectKey(project, cls, id))
  }

  function Lookup64(m: map<int64, bytes>, id: int64): Option<bytes> {
    if id in m then Some(m[id]) else None
  }

  predicate OfClass(k: bytes, project: bytes, cls: bytes) {
    var n := DecodeObjectKey(k);
    n.Some? && n.value.project == project && n.value.cls == cls
  }

  /** For the rows of a database the decoded names alone tell a class's objects. */
  lemma RowOfClass(k: bytes, project: bytes, cls: bytes, id: int64)
    requires (IsClassRow(k) || IsObjectRow(k)) && ZeroFree(project) && ZeroFree(cls)
    ensures k == ObjectKey(project, cls, id) <==> OfClass(k, project, cls) && DecodeObjectKey(k).value.id == id
    ensures OfClass(k, project, cls) <==> SelectedBy(project, cls, k)
  {
    DecodeObjectInverts(project, cls, id);
    if IsObjectRow(k) {
      var n := DecodeObjectKey(k).value;
      ScanSelectsExactlyTheClass(project, cls, n.project, n.cls, n.id);
    } else {
      var n := DecodeClassKey(k).value;
      DecodeClassInverts(n.project, n.cls);
    }
    hide ObjectKey, ClassKey, DecodeObjectKey, DecodeClassKey;
  }

  lemma ObjectsPut(m: map<int64, bytes>, db: Db, project: bytes, cls: bytes, k: bytes, v: bytes)
    requires ObjectsOf(m, db, project, cls) && (IsClassRow(k) || IsObjectRow(k)) && ZeroFree(project) && ZeroFree(cls)
    ensures ObjectsOf(if OfClass(k, project, cls) then m[DecodeObjectKey(k).value.id := v] else m, db[k := v], project, cls)
  {
    hide ObjectKey, ClassKey, DecodeObjectKey, DecodeClassKey, IsClassRow, IsObjectRow;
    var m' := if OfClass(k, project, cls) then m[DecodeObjectKey(k).value.id := v] else m;
    forall id: int64
      ensures Lookup64(m', id) == Lookup(db[k := v], ObjectKey(project, cls, id))
    {
      RowOfClass(k, project, cls, id);
      assert Lookup64(m, id) == Lookup(db, ObjectKey(project, cls, id));
    }
  }

  lemma ObjectsRemove(m: map<int64, bytes>, db: Db, project: bytes, cls: bytes, k: bytes)
    requires ObjectsOf(m, db, project, cls) && (IsClassRow(k) || IsObjectRow(k)) && ZeroFree(project) && ZeroFree(cls)
    ensures ObjectsOf(if OfClass(k, project, cls) then m - {DecodeObjectKey(k).value.id} else m, db - {k}, project, cls)
  {
    hide ObjectKey, ClassKey, DecodeObjectKey, DecodeClassKey, IsClassRow, IsObjectRow;
    var m' := if OfClass(k, project, cls) then m - {DecodeObjectKey(k).value.id} else m;
    forall id: int64
      ensures Lookup64(m', id) == Lookup(db - {k}, ObjectKey(project, cls, id))
    {
      RowOfClass(k, project, cls, id);
      assert Lookup64(m, id) == Lookup(db, ObjectKey(project, cls, id));
    }
  }

  // ---- Snapshot first, then overlay ----

  /** The part of a map on the keys visited so far. */
  function Part(db: Db, keys: seq<bytes>): Db {
    map k | k in db && k in keys :: db[k]
  }

  lemma PartNext(db: Db, keys: seq<bytes>, i: nat)
    requires i < |keys| && keys[i] in db
    ensures Part(db, keys[..i + 1]) == Part(db, keys[..i])[keys[i] := db[keys[i]]]
  {
    assert keys[..i + 1] == keys[..i] + [keys[i]];
  }

  lemma PartEnds(db: Db, keys: seq<bytes>)
    requires forall k :: k in keys <==> k in db
    ensures Part(db, keys[..0]) == map[] && Part(db, keys[..|keys|]) == db
  {
    assert keys[..|keys|] == keys;
  }

  lemma NoObjects(project: bytes, cls: bytes)
    ensures ObjectsOf(map[], map[], project, cls)
  {
  }

  lemma RowAt(db: Db, k: bytes)
    requires OnlyRows(db) && k in db
    ensures IsClassRow(k) || IsObjectRow(k)
  {
  }

  /** The scan of the snapshot, with its prefix and the check of the decoded scope. */
  method ScanObjects(db: Db, project: bytes, cls: bytes) returns (m: map<int64, bytes>)
    requires OnlyRows(db) && ZeroFree(project) && ZeroFree(cls)
    ensures ObjectsOf(m, db, project, cls)
  {
    hide OnlyRows, ObjectsOf, IsClassRow, IsObjectRow, DecodeObjectKey, ObjectPrefix, Part;
    var keys := SortKeys(db.Keys);
    m := map[];
    PartEnds(db, keys);
    NoObjects(project, cls);
    var i := 0;
    while i < |keys|
      invariant 0 <= i <= |keys| && ObjectsOf(m, Part(db, keys[..i]), project, cls)
    {
      var k := keys[i];
      RowAt(db, k);
      RowOfClass(k, project, cls, 0);
      PartNext(db, keys, i);
      ObjectsPut(m, Part(db, keys[..i]), project, cls, k, db[k]);
      if ObjectPrefix(project, cls) <= k {
        var n := DecodeObjectKey(k);
        if n.Some? && n.value.project == project && n.value.cls == cls {
          m := m[n.value.id := db[k]];
        }
      }
      i := i + 1;
    }
  }

  function PartOver(overlay: Overlay, keys: seq<bytes>): Overlay {
    map k | k in overlay && k in keys :: overlay[k]
  }

  lemma ViewUpdate(base: Db, overlay: Overlay, k: bytes, o: Over)
    ensures var v := View(base, overlay);
            View(base, overlay[k := o]) == if o.delta.Data? then v[k := o.delta.data] else v - {k}
  {
    assert Changes(overlay[k := o]) == Changes(overlay)[k := o.delta];
    hide Changes;
  }

  lemma PartOverNext(base: Db, overlay: Overlay, keys: seq<bytes>, i: nat)
    requires i < |keys| && keys[i] in overlay
    ensures var v := View(base, PartOver(overlay, keys[..i]));
            View(base, PartOver(overlay, keys[..i + 1])) ==
              if overlay[keys[i]].delta.Data? then v[keys[i] := overlay[keys[i]].delta.data] else v - {keys[i]}
  {
    assert keys[..i + 1] == keys[..i] + [keys[i]];
    assert PartOver(overlay, keys[..i + 1]) == PartOver(overlay, keys[..i])[keys[i] := overlay[keys[i]]];
    hide View, PartOver;
    ViewUpdate(base, PartOver(overlay, keys[..i]), keys[i], overlay[keys[i]]);
  }

  lemma PartOverEnds(base: Db, overlay: Overlay, keys: seq<bytes>)
    requires forall k :: k in keys <==> k in overlay
    ensures View(base, PartOver(overlay, keys[..0])) == base && View(base, PartOver(overlay, keys[..|keys|])) == View(base, overlay)
  {
    assert keys[..|keys|] == keys && PartOver(overlay, keys) == overlay;
  }

  ghost predicate OverlayRows(overlay: Overlay) {
    forall k :: k in overlay ==> IsClassRow(k) || IsObjectRow(k)
  }

  lemma OverlayRowAt(overlay: Overlay, k: bytes)
    requires OverlayRows(overlay) && k in overlay
    ensures IsClassRow(k) || IsObjectRow(k)
  {
  }

  /** The overlay's changes to the class, on top of what the snapshot holds. */
  method MergeOverlay(m0: map<int64, bytes>, overlay: Overlay, project: bytes, cls: bytes, ghost base: Db)
    returns (m: map<int64, bytes>)
    requires OverlayRows(overlay) && ZeroFree(project) && ZeroFree(cls) && ObjectsOf(m0, base, project, cls)
    ensures ObjectsOf(m, View(base, overlay), project, cls)
  {
    hide OverlayRows, ObjectsOf, IsClassRow, IsObjectRow, DecodeObjectKey, PartOver, View;
    var keys := SortKeys(overlay.Keys);
    m := m0;
    PartOverEnds(base, overlay, keys);
    var i := 0;
    while i < |keys|
      invariant 0 <= i <= |keys| && ObjectsOf(m, View(base, PartOver(overlay, keys[..i])), project, cls)
    {
      var k := keys[i];
      OverlayRowAt(overlay, k);
      PartOverNext(base, overlay, keys, i);
      ghost var view := View(base, PartOver(overlay, keys[..i]));
      if overlay[k].delta.Data? {
        ObjectsPut(m, view, project, cls, k, overlay[k].delta.data);
      } else {
        ObjectsRemove(m, view, project, cls, k);
      }
      var n := DecodeObjectKey(k);
      if n.Some? && n.value.project == project && n.value.cls == cls {
        m := if overlay[k].delta.Deleted? then m - {n.value.id} else m[n.value.id := overlay[k].delta.data];
      }
      i := i + 1;
    }
  }

  // ---- Filter, order, page ----

  predicate Keeps(filter: Option<Filter>, data: bytes) {
    filter.Some? ==> filter.value(data) == Ok(true)
  }

  predicate Fails(filter: Option<Filter>, data: bytes) {
    filter.Some? && filter.value(data).Err?
  }

  method Select(m: map<int64, bytes>, filter: Option<Filter>) returns (r: Result<set<int64>>)
    ensures r.Err? <==> exists id :: id in m && Fails(filter, m[id])
    ensures r.Ok? ==> forall id :: id in r.value <==> id in m && Keeps(filter, m[id])
  {
    var ids, rest := {}, m.Keys;
    while rest != {}
      invariant rest <= m.Keys
      invariant forall id :: id in m && id !in rest ==> !Fails(filter, m[id])
      invariant forall id :: id in ids <==> id in m && id !in rest && Keeps(filter, m[id])
    {
      var id :| id in rest;
      rest := rest - {id};
      if filter.Some? {
        var keep := filter.value(m[id]);
        if keep.Err? {
          assert Fails(filter, m[id]);
          return Err;
        }
        if !keep.value {
          continue;
        }
      }
      ids := ids + {id};
    }
    return Ok(ids);
  }

  ghost predicate AscendingIds(ids: seq<int64>) {
    forall i, j :: 0 <= i < j < |ids| ==> ids[i] < ids[j]
  }

  lemma {:induction false} LeastId(ids: set<int64>) returns (least: int64)
    requires ids != {}
    ensures least in ids && forall id :: id in ids ==> least <= id
  {
    var x :| x in ids;
    if ids == {x} {
      return x;
    }
    var m := LeastId(ids - {x});
    least := if x < m then x else m;
    assert forall id :: id in ids ==> id == x || id in ids - {x};
  }

  method SortIds(ids: set<int64>) returns (sorted: seq<int64>)
    ensures AscendingIds(sorted) && forall id :: id in sorted <==> id in ids
  {
    sorted := [];
    var rest := ids;
    while rest != {}
      invariant rest <= ids && AscendingIds(sorted)
      invariant forall id :: id in sorted <==> id in ids - rest
      invariant forall i, id :: 0 <= i < |sorted| && id in rest ==> sorted[i] < id
    {
      ghost var l := LeastId(rest);
      var least :| least in rest && forall id :: id in rest ==> least <= id;
      sorted := sorted + [least];
      rest := rest - {least};
    }
  }

  /** Skip `offset`, keep at most `limit`; a limit of zero or less keeps all, a negative offset skips none. */
  function Page(ids: seq<int64>, limit: int, offset: int): seq<int64> {
    var off := if offset < 0 then 0 else if offset > |ids| then |ids| else offset;
    var rest := ids[off..];
    if 0 < limit < |rest| then rest[..limit] else rest
  }

  /** A page starts at the offset, as far as there is one, and is as long as the limit and the list allow. */
  lemma PageIs(ids: seq<int64>, limit: int, offset: int)
    ensures var page := Page(ids, limit, offset);
            var o := if offset < 0 then 0 else if offset > |ids| then |ids| else offset;
            && |page| == (if 0 < limit < |ids| - o then limit else |ids| - o)
            && forall i :: 0 <= i < |page| ==> page[i] == ids[o + i]
  {
  }

  /** The pages of one limit from an offset on, put together. */
  function PagesFrom(ids: seq<int64>, limit: nat, offset: nat): seq<int64>
    requires limit > 0
    decreases |ids| - offset
  {
    if offset >= |ids| then [] else Page(ids, limit, offset) + PagesFrom(ids, limit, offset + limit)
  }

  /** Page after page, every id comes once: nothing is shown twice and nothing is left out. */
  lemma {:induction false} PagesCover(ids: seq<int64>, limit: nat, offset: nat)
    requires limit > 0 && offset <= |ids|
    ensures PagesFrom(ids, limit, offset) == ids[offset..]
    decreases |ids| - offset
  {
    hide Page;
    if offset < |ids| {
      PageSlice(ids, limit, offset);
      if offset + limit <= |ids| {
        PagesCover(ids, limit, offset + limit);
        SliceInTwo(ids, offset, offset + limit);
      } else {
        Whole(ids[offset..]);
      }
    }
  }

  lemma PageSlice(ids: seq<int64>, limit: nat, offset: nat)
    requires limit > 0 && offset <= |ids|
    ensures Page(ids, limit, offset) == if offset + limit <= |ids| then ids[offset..offset + limit] else ids[offset..]
  {
  }

  lemma SliceInTwo(ids: seq<int64>, i: nat, j: nat)
    requires i <= j <= |ids|
    ensures ids[i..] == ids[i..j] + ids[j..]
  {
  }

  function Objects(m: map<int64, bytes>, ids: seq<int64>): seq<Object>
    requires forall id :: id in ids ==> id in m
  {
    seq(|ids|, i requires 0 <= i < |ids| => Object(ids[i], m[ids[i]]))
  }

  method TakePage(ids: seq<int64>, limit: int, offset: int) returns (page: seq<int64>)
    ensures page == Page(ids, limit, offset)
    ensures forall id :: id in page ==> id in ids
  {
    var off := offset;
    if off < 0 {
      off := 0;
    }
    if off > |ids| {
      off := |ids|;
    }
    page := ids[off..];
    if limit > 0 && limit < |page| {
      page := page[..limit];
    }
  }
}
