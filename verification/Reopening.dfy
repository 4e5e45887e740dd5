/** Rebuilding the engine's memory at boot: id counters, overlay and class set (recovery.go, engine.go). */
module Reopening {
  import opened Bytes
  import opened Seqs
  import opened Sorting
  import opened Keys
  import opened Entries
  import opened IdGen
  import opened Schema
  import opened Overlays

  // ---- Ids in the tree ----

  predicate Covers(counters: map<bytes, nat>, k: bytes) {
    match DecodeObjectKey(k)
    case None => true
    case Some(n) => n.id <= Count(counters, ScopeKey(n.project, n.cls))
  }

  lemma CoveredIsRight(counters: map<bytes, nat>, db: Db)
    requires forall k :: k in db ==> Covers(counters, k)
    ensures CountersRight(counters, db)
  {
    forall p, c, id: int64 | ZeroFree(p) && ZeroFree(c) && ObjectKey(p, c, id) in db
      ensures id <= Count(counters, ScopeKey(p, c))
    {
      DecodeObjectInverts(p, c, id);
      hide ObjectKey, DecodeObjectKey;
      assert Covers(counters, ObjectKey(p, c, id));
    }
  }

  lemma CoversMore(a: map<bytes, nat>, b: map<bytes, nat>, k: bytes)
    requires Covers(a, k) && forall s :: Count(b, s) >= Count(a, s)
    ensures Covers(b, k)
  {
    hide DecodeObjectKey, ScopeKey;
  }

  ghost predicate AllCovered(counters: map<bytes, nat>, keys: seq<bytes>) {
    forall i :: 0 <= i < |keys| ==> Covers(counters, keys[i])
  }

  /** The row is an object of this class with this id. */
  predicate HasId(k: bytes, scope: bytes, id: int) {
    match DecodeObjectKey(k)
    case None => false
    case Some(n) => ScopeKey(n.project, n.cls) == scope && n.id == id
  }

  /** Every counter is the highest id its class has among these rows, or zero. */
  ghost predicate Highest(counters: map<bytes, nat>, keys: seq<bytes>) {
    && AllCovered(counters, keys)
    && forall s :: Count(counters, s) == 0 || exists i :: 0 <= i < |keys| && HasId(keys[i], s, Count(counters, s))
  }

  /** What observing one row's id does to the counters. */
  ghost predicate Observed(a: map<bytes, nat>, b: map<bytes, nat>, k: bytes) {
    match DecodeObjectKey(k)
    case None => a == b
    case Some(n) =>
      var scope := ScopeKey(n.project, n.cls);
      && Count(b, scope) == (if n.id > Count(a, scope) then n.id else Count(a, scope))
      && forall s :: s != scope ==> Count(b, s) == Count(a, s)
  }

  lemma HighestNext(a: map<bytes, nat>, b: map<bytes, nat>, keys: seq<bytes>, k: bytes)
    requires Highest(a, keys) && Observed(a, b, k)
    ensures Highest(b, keys + [k])
  {
    hide DecodeObjectKey, ScopeKey, Count;
    var keys' := keys + [k];
    forall i | 0 <= i < |keys'|
      ensures Covers(b, keys'[i])
    {
      if i < |keys| {
        assert Covers(a, keys[i]);
        CoversMore(a, b, keys[i]);
      }
    }
    forall s
      ensures Count(b, s) == 0 || exists i :: 0 <= i < |keys'| && HasId(keys'[i], s, Count(b, s))
    {
      if Count(b, s) != 0 {
        if Count(b, s) == Count(a, s) {
          var i :| 0 <= i < |keys| && HasId(keys[i], s, Count(a, s));
          assert HasId(keys'[i], s, Count(b, s));
        } else {
          assert HasId(keys'[|keys|], s, Count(b, s));
        }
      }
    }
  }

  lemma NothingObserved()
    ensures Highest(map[], [])
  {
  }

  /** Every object id found in the tree raises its class's counter. */
  method ObserveTreeIds(db: Db, gen: Generator) returns (ghost seen: seq<bytes>)
    requires gen.counters == map[]
    modifies gen
    ensures CountersRight(gen.counters, db)
    ensures Highest(gen.counters, seen) && forall k :: k in seen <==> k in db
  {
    hide CountersRight, Covers, DecodeObjectKey, ScopeKey, Highest;
    var keys := SortKeys(db.Keys);
    NothingObserved();
    Whole(keys);
    var i := 0;
    while i < |keys|
      invariant 0 <= i <= |keys| && Highest(gen.counters, keys[..i])
    {
      ghost var before := gen.counters;
      var name := DecodeObjectKey(keys[i]);
      if name.Some? {
        gen.Observe(ScopeKey(name.value.project, name.value.cls), name.value.id);
      }
      TakeNext(keys, i);
      HighestNext(before, gen.counters, keys[..i], keys[i]);
      i := i + 1;
    }
    seen := keys;
    AllKeysCovered(gen.counters, keys, db);
  }

  lemma AllKeysCovered(counters: map<bytes, nat>, keys: seq<bytes>, db: Db)
    requires Highest(counters, keys) && forall k :: k in keys <==> k in db
    ensures CountersRight(counters, db)
  {
    hide Covers, HasId;
    forall k | k in db
      ensures Covers(counters, k)
    {
      assert k in keys;
    }
    CoveredIsRight(counters, db);
  }

  // ---- Classes in the tree ----

  /** The class rows among the keys visited so far, as scope keys. */
  ghost predicate ClassesOf(classes: set<bytes>, keys: seq<bytes>) {
    && (forall i :: 0 <= i < |keys| && IsClassRow(keys[i]) ==> ScopeOfRow(keys[i]) in classes)
    && forall s :: s in classes ==> exists i :: 0 <= i < |keys| && IsClassRow(keys[i]) && s == ScopeOfRow(keys[i])
  }

  function ScopeOfRow(k: bytes): bytes
    requires IsClassRow(k)
  {
    ScopeKey(DecodeClassKey(k).value.project, DecodeClassKey(k).value.cls)
  }

  lemma ClassesOfNext(classes: set<bytes>, keys: seq<bytes>, i: nat)
    requires i < |keys| && ClassesOf(classes, keys[..i])
    ensures ClassesOf(if IsClassRow(keys[i]) then classes + {ScopeOfRow(keys[i])} else classes, keys[..i + 1])
  {
    hide IsClassRow, ScopeOfRow;
    var a, b := keys[..i], keys[..i + 1];
    assert forall j :: 0 <= j < i ==> b[j] == a[j];
    assert b[i] == keys[i];
    forall s | s in classes
      ensures exists j :: 0 <= j < |b| && IsClassRow(b[j]) && s == ScopeOfRow(b[j])
    {
      var j :| 0 <= j < |a| && IsClassRow(a[j]) && s == ScopeOfRow(a[j]);
      assert IsClassRow(b[j]) && s == ScopeOfRow(b[j]);
    }
  }

  lemma ClassesOfAll(classes: set<bytes>, keys: seq<bytes>, db: Db)
    requires ClassesOf(classes, keys) && OnlyRows(db) && forall k :: k in keys <==> k in db
    ensures ClassesRight(classes, db)
  {
    hide IsObjectRow, DecodeClassKey;
    forall s | s in classes
      ensures IsScope(s)
    {
      var i :| 0 <= i < |keys| && IsClassRow(keys[i]) && s == ScopeOfRow(keys[i]);
      ScopeNames(DecodeClassKey(keys[i]).value.project, DecodeClassKey(keys[i]).value.cls);
    }
    forall p, c | ZeroFree(p) && ZeroFree(c)
      ensures ScopeKey(p, c) in classes <==> ClassKey(p, c) in db
    {
      ClassFound(classes, keys, p, c);
    }
  }

  lemma ClassFound(classes: set<bytes>, keys: seq<bytes>, p: bytes, c: bytes)
    requires ClassesOf(classes, keys) && ZeroFree(p) && ZeroFree(c)
    requires forall k :: k in keys ==> IsClassRow(k) || IsObjectRow(k)
    ensures ScopeKey(p, c) in classes <==> ClassKey(p, c) in keys
  {
    DecodeClassInverts(p, c);
    ClassIsNoObject(p, c);
    hide ClassKey, ScopeKey, DecodeClassKey;
    if ScopeKey(p, c) in classes {
      var i :| 0 <= i < |keys| && IsClassRow(keys[i]) && ScopeKey(p, c) == ScopeOfRow(keys[i]);
      var n := DecodeClassKey(keys[i]).value;
      KeysInjective(p, c, 0, n.project, n.cls, 0);
    }
    if ClassKey(p, c) in keys {
      var i :| 0 <= i < |keys| && keys[i] == ClassKey(p, c);
      assert IsClassRow(keys[i]) && ScopeOfRow(keys[i]) == ScopeKey(p, c);
    }
  }

  method LoadClasses(db: Db) returns (classes: set<bytes>)
    requires OnlyRows(db)
    ensures ClassesRight(classes, db)
  {
    hide ClassesRight, ClassesOf, OnlyRows, IsClassRow, ScopeOfRow, DecodeClassKey;
    var keys := SortKeys(db.Keys);
    classes := {};
    NoClasses(keys);
    var i := 0;
    while i < |keys|
      invariant 0 <= i <= |keys| && ClassesOf(classes, keys[..i])
    {
      ClassesOfNext(classes, keys, i);
      RowDecodes(db, keys[i]);
      var name := DecodeClassKey(keys[i]);
      if name.Some? {
        classes := classes + {ScopeKey(name.value.project, name.value.cls)};
      }
      i := i + 1;
    }
    Whole(keys);
    ClassesOfAll(classes, keys, db);
  }

  lemma NoClasses(keys: seq<bytes>)
    ensures ClassesOf({}, keys[..0])
  {
  }

  lemma RowDecodes(db: Db, k: bytes)
    requires OnlyRows(db) && k in db
    ensures IsClassRow(k) <==> DecodeClassKey(k).Some?
    ensures IsClassRow(k) ==> ScopeOfRow(k) == ScopeKey(DecodeClassKey(k).value.project, DecodeClassKey(k).value.cls)
  {
    if IsObjectRow(k) {
      var n := DecodeObjectKey(k).value;
      DecodeObjectInverts(n.project, n.cls, n.id);
    }
    hide ClassKey, ObjectKey, ScopeKey, DecodeClassKey, DecodeObjectKey;
  }

  // ---- The live log ----

  /** A list of changes, each with the number of the record it came in. */
  ghost predicate Tagged(out: seq<LogEntry>, changes: seq<Entry>, last: nat) {
    |out| == |changes| && forall i :: 0 <= i < |out| ==> out[i].entry == changes[i] && out[i].tx <= last
  }

  /** The changes of one record, each under its number. */
  function Each(tx: nat, es: seq<Entry>): seq<LogEntry> {
    seq(|es|, i requires 0 <= i < |es| => LogEntry(tx, es[i]))
  }

  /** The changes of all records above a position, in log order, each under its record's number. */
  function Listed(log: seq<LogEntry>, applied: nat): seq<LogEntry> {
    if log == [] then []
    else
      var r := log[|log| - 1];
      Listed(log[..|log| - 1], applied) + if r.tx > applied then Each(r.tx, r.entry.Flatten()) else []
  }

  lemma EachNext(out: seq<LogEntry>, tx: nat, es: seq<Entry>, j: nat)
    requires j < |es|
    ensures out + Each(tx, es[..j + 1]) == out + Each(tx, es[..j]) + [LogEntry(tx, es[j])]
  {
  }

  lemma EachNone(out: seq<LogEntry>, tx: nat, es: seq<Entry>)
    ensures out + Each(tx, es[..0]) == out && es[..|es|] == es
  {
  }

  lemma ListedNext(log: seq<LogEntry>, i: nat, applied: nat)
    requires i < |log|
    ensures Listed(log[..i + 1], applied) ==
            Listed(log[..i], applied) + if log[i].tx > applied then Each(log[i].tx, log[i].entry.Flatten()) else []
  {
    assert log[..i + 1][..i] == log[..i] && log[..i + 1][i] == log[i];
    hide Entry.Flatten;
  }

  /** What is listed are the mutations above the position. */
  lemma {:induction false} ListedIsTagged(log: seq<LogEntry>, applied: nat)
    ensures Tagged(Listed(log, applied), Mutations(log, applied), MaxTx(log, applied))
  {
    hide Entry.Flatten;
    if log != [] {
      ListedIsTagged(log[..|log| - 1], applied);
    }
  }

  /** Every listed change belongs to the record whose number it carries, and every such change is listed. */
  lemma {:induction false} ListedNumbers(log: seq<LogEntry>, applied: nat, tx: nat, e: Entry)
    ensures LogEntry(tx, e) in Listed(log, applied) <==>
            exists j :: 0 <= j < |log| && log[j].tx == tx > applied && e in log[j].entry.Flatten()
  {
    hide Entry.Flatten;
    if log != [] {
      var init, r := log[..|log| - 1], log[|log| - 1];
      ListedNumbers(init, applied, tx, e);
      InEach(r.tx, r.entry.Flatten(), tx, e);
      assert forall j :: 0 <= j < |init| ==> init[j] == log[j];
    }
  }

  lemma InEach(tx: nat, es: seq<Entry>, tx': nat, e: Entry)
    ensures LogEntry(tx', e) in Each(tx, es) <==> tx' == tx && e in es
  {
    if tx' == tx && e in es {
      var i :| 0 <= i < |es| && es[i] == e;
      assert Each(tx, es)[i] == LogEntry(tx', e);
    }
  }

  lemma FoldNext(base: Db, before: seq<Entry>, subs: seq<Entry>, j: nat)
    requires j < |subs|
    ensures before + subs[..j + 1] == before + subs[..j] + [subs[j]]
    ensures Fold(base, before + subs[..j + 1]) == Effect(Fold(base, before + subs[..j]), subs[j])
  {
    var es := before + subs[..j + 1];
    assert es[..|es| - 1] == before + subs[..j] && es[|es| - 1] == subs[j];
    hide Effect;
  }

  lemma NamedAt(es: seq<Entry>, i: nat)
    requires AllNamed(es) && i < |es|
    ensures Named(es[i])
  {
  }

  /** The rows of the objects a list of changes writes. */
  function PutKeys(es: seq<Entry>): seq<bytes> {
    if es == [] then []
    else PutKeys(es[..|es| - 1]) + if es[|es| - 1].op.Put? then [es[|es| - 1].Key()] else []
  }

  lemma PutKeysNext(before: seq<Entry>, subs: seq<Entry>, j: nat, seen: seq<bytes>)
    requires j < |subs|
    ensures seen + PutKeys(before + subs[..j + 1]) ==
            if subs[j].op.Put? then seen + PutKeys(before + subs[..j]) + [subs[j].Key()] else seen + PutKeys(before + subs[..j])
  {
    var es := before + subs[..j + 1];
    assert es[..|es| - 1] == before + subs[..j] && es[|es| - 1] == subs[j];
    Assoc(seen, PutKeys(before + subs[..j]), [subs[j].Key()]);
    Whole(PutKeys(before + subs[..j]));
  }

  lemma PutObserved(a: map<bytes, nat>, b: map<bytes, nat>, e: Entry)
    requires Named(e) && e.op.Put?
    requires var scope := ScopeKey(e.project, e.cls);
             && Count(b, scope) == (if e.id > Count(a, scope) then e.id else Count(a, scope))
             && forall s :: s != scope ==> Count(b, s) == Count(a, s)
    ensures Observed(a, b, e.Key())
  {
    DecodeObjectInverts(e.project, e.cls, e.id);
    hide DecodeObjectKey, ScopeKey, ObjectKey;
  }

  /** One record: each of its changes is listed under its number, and its new ids are observed. */
  method ReplayRecord(r: LogEntry, gen: Generator, out0: seq<LogEntry>, ghost before: seq<Entry>, ghost base: Db,
                      ghost seen: seq<bytes>)
    returns (out: seq<LogEntry>)
    requires AllNamed(r.entry.Flatten()) && CountersRight(gen.counters, Fold(base, before))
    requires Highest(gen.counters, seen + PutKeys(before))
    modifies gen
    ensures CountersRight(gen.counters, Fold(base, before + r.entry.Flatten()))
    ensures Highest(gen.counters, seen + PutKeys(before + r.entry.Flatten()))
    ensures out == out0 + Each(r.tx, r.entry.Flatten())
  {
    hide CountersRight, Each, Effect, Fold, Named, AllNamed, Entry.Flatten, Entry.Key, Highest, PutKeys, Observed,
      ScopeKey;
    out := out0;
    var subs := r.entry.Flatten();
    TakeAll(before, subs);
    EachNone(out0, r.tx, subs);
    var j := 0;
    while j < |subs|
      invariant 0 <= j <= |subs| && CountersRight(gen.counters, Fold(base, before + subs[..j]))
      invariant out == out0 + Each(r.tx, subs[..j]) && Highest(gen.counters, seen + PutKeys(before + subs[..j]))
    {
      ghost var counters := gen.counters;
      var sub := subs[j];
      NamedAt(subs, j);
      FoldNext(base, before, subs, j);
      EachNext(out0, r.tx, subs, j);
      if sub.op.Put? && sub.id > 0 {
        gen.Observe(ScopeKey(sub.project, sub.cls), sub.id);
      }
      NamedPut(sub);
      PutKeysNext(before, subs, j, seen);
      if sub.op.Put? {
        PutObserved(counters, gen.counters, sub);
        HighestNext(counters, gen.counters, seen + PutKeys(before + subs[..j]), sub.Key());
      }
      CountersStep(counters, gen.counters, Fold(base, before + subs[..j]), sub);
      out := out + [LogEntry(r.tx, sub)];
      j := j + 1;
    }
  }

  lemma NamedPut(e: Entry)
    requires Named(e)
    ensures e.op.Put? ==> e.id > 0
  {
  }

  ghost predicate LogNamed(log: seq<LogEntry>) {
    forall i :: 0 <= i < |log| ==> AllNamed(log[i].entry.Flatten())
  }

  /** Lists the changes the active generation does not hold, in log order, each under its record's number. */
  method ReplayWal(log: seq<LogEntry>, skipUpTo: nat, gen: Generator, ghost base: Db, ghost seen: seq<bytes>)
    returns (out: seq<LogEntry>, maxTx: nat)
    requires LogNamed(log) && CountersRight(gen.counters, base) && Highest(gen.counters, seen)
    modifies gen
    ensures CountersRight(gen.counters, Fold(base, Mutations(log, skipUpTo)))
    ensures Highest(gen.counters, seen + PutKeys(Mutations(log, skipUpTo)))
    ensures out == Listed(log, skipUpTo) && maxTx == MaxTx(log, 0)
  {
    hide CountersRight, Listed, Each, Fold, AllNamed, Entry.Flatten, Mutations, MaxTx, Highest, PutKeys;
    out, maxTx := [], 0;
    ReplayStarts(log, skipUpTo, base, seen);
    var i := 0;
    while i < |log|
      invariant 0 <= i <= |log| && maxTx == MaxTx(log[..i], 0)
      invariant CountersRight(gen.counters, Fold(base, Mutations(log[..i], skipUpTo)))
      invariant Highest(gen.counters, seen + PutKeys(Mutations(log[..i], skipUpTo)))
      invariant out == Listed(log[..i], skipUpTo)
    {
      var r := log[i];
      LogNext(log, i, 0);
      LogNext(log, i, skipUpTo);
      maxTx := if r.tx > maxTx then r.tx else maxTx;
      ListedNext(log, i, skipUpTo);
      Whole(out);
      Whole(Mutations(log[..i], skipUpTo));
      if r.tx > skipUpTo {
        out := ReplayRecord(r, gen, out, Mutations(log[..i], skipUpTo), base, seen);
      }
      i := i + 1;
    }
  }

  lemma ReplayStarts(log: seq<LogEntry>, skipUpTo: nat, base: Db, seen: seq<bytes>)
    ensures seen + PutKeys(Mutations(log[..0], skipUpTo)) == seen
    ensures log[..|log|] == log && MaxTx(log[..0], 0) == 0 && Fold(base, Mutations(log[..0], skipUpTo)) == base
    ensures Listed(log[..0], skipUpTo) == []
  {
  }

  // ---- Overlay and class set ----

  /** Publishes the replayed changes one after the other, keeping the class set in step. */
  method ApplyReplay(replayed: seq<LogEntry>, classes0: set<bytes>, ghost changes: seq<Entry>, ghost base: Db,
                     ghost last: nat)
    returns (overlay: Overlay, classes: set<bytes>)
    requires Tagged(replayed, changes, last) && AllNamed(changes) && ClassesRight(classes0, base)
    ensures Changes(overlay) == Net(changes) && ClassesRight(classes, Fold(base, changes))
    ensures forall k :: k in overlay ==> overlay[k].tx <= last
    ensures overlay == Republished(replayed)
  {
    hide Republished;
    hide ClassesRight, Effect, Fold, Named, AllNamed, Net, Changes, Entry.Key, ScopeKey;
    overlay, classes := map[], classes0;
    var i := 0;
    NothingReplayed(changes, base);
    NothingRepublished(replayed);
    while i < |replayed|
      invariant 0 <= i <= |replayed| && Changes(overlay) == Net(changes[..i]) && ClassesRight(classes, Fold(base, changes[..i]))
      invariant forall k :: k in overlay ==> overlay[k].tx <= last
      invariant overlay == Republished(replayed[..i])
    {
      RepublishedNext(replayed, i);
      var e, tx := replayed[i].entry, replayed[i].tx;
      NamedAt(changes, i);
      FoldNext(base, [], changes, i);
      NetNext([], changes, i);
      Unprefixed(changes, i);
      ClassesStep(classes, Fold(base, changes[..i]), e);
      ViewStep(base, overlay, e, tx);
      KnownDelta(e);
      if e.op.Put? {
        overlay := overlay[e.Key() := Over(tx, Data(e.data))];
      } else if e.op.Delete? {
        overlay := overlay[e.Key() := Over(tx, Deleted)];
      } else if e.op.CreateClass? {
        overlay := overlay[e.Key() := Over(tx, Data(e.data))];
        classes := classes + {ScopeKey(e.project, e.cls)};
      } else if e.op.DropClass? {
        overlay := overlay[e.Key() := Over(tx, Deleted)];
        classes := classes - {ScopeKey(e.project, e.cls)};
      }
      i := i + 1;
    }
    Whole(changes);
  }

  lemma NothingRepublished(replayed: seq<LogEntry>)
    ensures Republished(replayed[..0]) == map[] && replayed[..|replayed|] == replayed
  {
  }

  lemma NothingReplayed(changes: seq<Entry>, base: Db)
    ensures Changes(map[]) == Net(changes[..0]) && Fold(base, changes[..0]) == base
  {
  }

  lemma Unprefixed(changes: seq<Entry>, i: nat)
    requires i < |changes|
    ensures [] + changes[..i] == changes[..i] && [] + changes[..i + 1] == changes[..i + 1]
  {
  }

  lemma KnownDelta(e: Entry)
    requires Named(e)
    ensures e.op.Put? || e.op.Delete? || e.op.CreateClass? || e.op.DropClass?
    ensures DeltaOf(e) == if e.op.Delete? || e.op.DropClass? then Deleted else Data(e.data)
  {
  }
}
