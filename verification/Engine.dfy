/** The object store on top of it all, used by one caller at a time (engine.go). */
module Engine {
  import opened Bytes
  import opened Wrappers
  import opened Seqs
  import opened Keys
  import opened Entries
  import opened Generations
  import opened IdGen
  import opened Schema
  import opened Overlays
  import opened Queries
  import opened Reopening
  import KVLists

  datatype Fault = InvalidName | ClassExists | NoClass | ClassNotEmpty | NotFound | TooLarge | FilterFailed

  datatype Answer<T> = Got(value: T) | Failed(fault: Fault)

  predicate HasClass(db: Db, project: bytes, cls: bytes) {
    ZeroFree(project) && ZeroFree(cls) && ClassKey(project, cls) in db
  }

  lemma ScopeIsClass(classes: set<bytes>, db: Db, project: bytes, cls: bytes)
    requires ClassesRight(classes, db)
    ensures ScopeKey(project, cls) in classes <==> HasClass(db, project, cls)
  {
    ScopeNames(project, cls);
  }

  lemma SoundClasses(db: Db, classes: set<bytes>, counters: map<bytes, nat>)
    requires Sound(db, classes, counters)
    ensures ClassesRight(classes, db) && CountersRight(counters, db) && OnlyRows(db)
  {
  }

  /** What is on disk and what is in the overlay fit together. */
  ghost predicate Stored(base: Gen, log: seq<LogEntry>, overlay: Overlay, nextTx: nat) {
    Mirrors(overlay, base, log) && Logged(base, log, nextTx) && OverlayRows(overlay) && OnlyRows(base.db) && Reopenable(base, log)
  }

  lemma StoredParts(base: Gen, log: seq<LogEntry>, overlay: Overlay, nextTx: nat)
    ensures Stored(base, log, overlay, nextTx) <==>
              Mirrors(overlay, base, log) && Logged(base, log, nextTx) && OverlayRows(overlay) && OnlyRows(base.db) && Reopenable(base, log)
  {
  }

  /** A record whose effect leaves the contents intact may be logged. */
  lemma LoggedIntact(base: Gen, log: seq<LogEntry>, overlay: Overlay, nextTx: nat, r: LogEntry)
    requires Mirrors(overlay, base, log + [r]) && Logged(base, log + [r], nextTx) && OnlyRows(base.db) && Reopenable(base, log)
    requires OnlyRows(View(base.db, overlay)) && ObjectsHaveClasses(View(base.db, overlay))
    ensures Reopenable(base, log + [r])
  {
    ViewIsFold(overlay, base, log + [r]);
    hide View, OnlyRows, ObjectsHaveClasses, Mirrors, Fold, Mutations, Reopenable, AllNamed, Entry.Flatten;
    ReopenableNext(base, log, r);
  }

  lemma BurnedNumber(base: Gen, log: seq<LogEntry>, overlay: Overlay, nextTx: nat)
    requires Stored(base, log, overlay, nextTx)
    ensures Stored(base, log, overlay, nextTx + 1)
  {
  }

  lemma OneMoreRow(overlay: Overlay, e: Entry, tx: nat)
    requires OverlayRows(overlay) && Named(e)
    ensures OverlayRows(overlay[e.Key() := Over(tx, DeltaOf(e))])
  {
    EntryRow(e);
    hide IsClassRow, IsObjectRow, Entry.Key;
  }

  // ---- Opening again ----

  /** Rows only, known entries only, objects with their classes. */
  ghost predicate Intact(base: Gen, log: seq<LogEntry>) {
    && OnlyRows(base.db) && LogNamed(log)
    && OnlyRows(Fold(base.db, Mutations(log, base.applied)))
    && ObjectsHaveClasses(Fold(base.db, Mutations(log, base.applied)))
  }

  /** What every engine leaves on disk: whatever prefix of the log a crash keeps, the contents are intact. */
  ghost predicate Reopenable(base: Gen, log: seq<LogEntry>) {
    forall n :: 0 <= n <= |log| ==> Intact(base, log[..n])
  }

  lemma CutReopenable(base: Gen, log: seq<LogEntry>, kept: nat)
    requires Reopenable(base, log) && kept <= |log|
    ensures Reopenable(base, log[..kept]) && Intact(base, log[..kept])
  {
    hide Intact;
    forall n | 0 <= n <= kept
      ensures Intact(base, log[..kept][..n])
    {
      assert log[..kept][..n] == log[..n];
    }
  }

  lemma ReopenableNext(base: Gen, log: seq<LogEntry>, r: LogEntry)
    requires Reopenable(base, log) && Intact(base, log + [r])
    ensures Reopenable(base, log + [r])
  {
    hide Intact;
    var log' := log + [r];
    forall n | 0 <= n <= |log'|
      ensures Intact(base, log'[..n])
    {
      assert n <= |log| ==> log'[..n] == log[..n];
      assert n == |log'| ==> log'[..n] == log';
    }
  }

  lemma ReopenableEmpty(base: Gen)
    requires OnlyRows(base.db) && ObjectsHaveClasses(base.db)
    ensures Reopenable(base, [])
  {
    hide ObjectsHaveClasses, OnlyRows;
    forall n | 0 <= n <= 0
      ensures Intact(base, [][..n])
    {
    }
  }

  lemma IntactParts(base: Gen, log: seq<LogEntry>)
    requires Intact(base, log)
    ensures OnlyRows(base.db) && LogNamed(log) && AllNamed(Mutations(log, base.applied))
  {
    MutationsNamed(log, base.applied);
  }

  lemma {:induction false} MutationsNamed(log: seq<LogEntry>, applied: nat)
    requires LogNamed(log)
    ensures AllNamed(Mutations(log, applied))
  {
    hide Named, Entry.Flatten;
    if log != [] {
      MutationsNamed(log[..|log| - 1], applied);
      assert AllNamed(log[|log| - 1].entry.Flatten());
    }
  }

  lemma {:induction false} NetRows(es: seq<Entry>)
    requires AllNamed(es)
    ensures forall k :: k in Net(es) ==> IsClassRow(k) || IsObjectRow(k)
  {
    if es != [] {
      var e := es[|es| - 1];
      assert Named(e);
      EntryRow(e);
      hide IsClassRow, IsObjectRow, Entry.Key, Named;
      NetRows(es[..|es| - 1]);
    }
  }

  lemma OverlayOfRows(overlay: Overlay, es: seq<Entry>)
    requires AllNamed(es) && Changes(overlay) == Net(es)
    ensures OverlayRows(overlay)
  {
    NetRows(es);
    hide Net, AllNamed, IsClassRow, IsObjectRow;
    assert forall k :: k in overlay ==> k in Changes(overlay);
  }

  lemma ReopenedLog(base: Gen, log: seq<LogEntry>)
    requires LogNamed(log)
    ensures Logged(base, log, if MaxTx(log, 0) > base.applied then MaxTx(log, 0) else base.applied)
  {
    MaxTxBounds(log, 0);
    hide MaxTx, AllNamed, Entry.Flatten;
  }

  lemma ReopenedStored(base: Gen, log: seq<LogEntry>, overlay: Overlay)
    requires Intact(base, log) && Reopenable(base, log) && Changes(overlay) == Net(Mutations(log, base.applied))
    requires forall k :: k in overlay ==> overlay[k].tx <= MaxTx(log, base.applied)
    ensures Stored(base, log, overlay, if MaxTx(log, 0) > base.applied then MaxTx(log, 0) else base.applied)
  {
    IntactParts(base, log);
    OverlayOfRows(overlay, Mutations(log, base.applied));
    ReopenedLog(base, log);
    hide Fold, Net, Mutations, MaxTx, OverlayRows, OnlyRows, ObjectsHaveClasses, LogNamed, Logged, Changes, Reopenable;
  }

  lemma Reopened(base: Gen, log: seq<LogEntry>, overlay: Overlay, classes: set<bytes>, counters: map<bytes, nat>)
    requires Intact(base, log) && Reopenable(base, log) && Changes(overlay) == Net(Mutations(log, base.applied))
    requires forall k :: k in overlay ==> overlay[k].tx <= MaxTx(log, base.applied)
    requires ClassesRight(classes, Fold(base.db, Mutations(log, base.applied)))
    requires CountersRight(counters, Fold(base.db, Mutations(log, base.applied)))
    ensures var nextTx := if MaxTx(log, 0) > base.applied then MaxTx(log, 0) else base.applied;
            && Stored(base, log, overlay, nextTx) && Sound(View(base.db, overlay), classes, counters)
            && View(base.db, overlay) == Fold(base.db, Mutations(log, base.applied))
  {
    ReopenedStored(base, log, overlay);
    MergeIsFold(base.db, Mutations(log, base.applied));
    hide Stored, Fold, Net, Mutations, MaxTx, ClassesRight, CountersRight, ObjectsHaveClasses, OnlyRows, LogNamed,
      Merge, Reopenable;
  }

  /** A row of the tree, or of an object that some record of the log writes. */
  predicate Seen(base: Gen, log: seq<LogEntry>, k: bytes) {
    k in base.db || k in PutKeys(Mutations(log, base.applied))
  }

  /** After a restart every counter is the highest id of its class that tree or log still show, or zero. */
  ghost predicate HighestSeen(counters: map<bytes, nat>, base: Gen, log: seq<LogEntry>) {
    && (forall k :: Seen(base, log, k) ==> Covers(counters, k))
    && forall s :: Count(counters, s) == 0 || exists k :: Seen(base, log, k) && HasId(k, s, Count(counters, s))
  }

  lemma SeenIds(counters: map<bytes, nat>, base: Gen, log: seq<LogEntry>, tree: seq<bytes>)
    requires Highest(counters, tree + PutKeys(Mutations(log, base.applied))) && forall k :: k in tree <==> k in base.db
    ensures HighestSeen(counters, base, log)
  {
    hide Covers, HasId, PutKeys, Mutations, Count;
    var keys := tree + PutKeys(Mutations(log, base.applied));
    assert forall k :: k in keys <==> Seen(base, log, k);
    forall s | Count(counters, s) != 0
      ensures exists k :: Seen(base, log, k) && HasId(k, s, Count(counters, s))
    {
      var i :| 0 <= i < |keys| && HasId(keys[i], s, Count(counters, s));
      assert Seen(base, log, keys[i]);
    }
  }

  method Rebuild(base: Gen, log: seq<LogEntry>, gen: Generator)
    returns (nextTx: nat, overlay: Overlay, classes: set<bytes>)
    requires Reopenable(base, log) && gen.counters == map[]
    modifies gen
    ensures HighestSeen(gen.counters, base, log)
    ensures nextTx == if MaxTx(log, 0) > base.applied then MaxTx(log, 0) else base.applied
    ensures Stored(base, log, overlay, nextTx) && Sound(View(base.db, overlay), classes, gen.counters)
    ensures View(base.db, overlay) == Fold(base.db, Mutations(log, base.applied))
    ensures overlay == Republished(Listed(log, base.applied))
  {
    hide *;
    CutReopenable(base, log, |log|);
    Whole(log);
    IntactParts(base, log);
    ghost var seen := ObserveTreeIds(base.db, gen);
    var replayed, maxTx := ReplayWal(log, base.applied, gen, base.db, seen);
    ListedIsTagged(log, base.applied);
    SeenIds(gen.counters, base, log, seen);
    nextTx := if maxTx > base.applied then maxTx else base.applied;
    var loaded := LoadClasses(base.db);
    overlay, classes := ApplyReplay(replayed, loaded, Mutations(log, base.applied), base.db, MaxTx(log, base.applied));
    Reopened(base, log, overlay, classes, gen.counters);
  }

  class Engine {
    /** Whether an entry's payload is within the record limit. */
    const fits: Entry -> bool
    var base: Gen
    var log: seq<LogEntry>
    var nextTx: nat
    var overlay: Overlay
    var classes: set<bytes>
    var gen: Generator

    /** The map the engine stands for. */
    ghost function Map(): Db
      reads this
    {
      View(base.db, overlay)
    }

    ghost predicate Valid()
      reads this, gen
    {
      Stored(base, log, overlay, nextTx) && Sound(Map(), classes, gen.counters)
    }

    /**
     * Opens a recovered directory: counters, class set and overlay are rebuilt from the active
     * generation and the live log, and the engine stands for the one with the other applied.
     */
    constructor Open(fits: Entry -> bool, base: Gen, log: seq<LogEntry>)
      requires Reopenable(base, log)
      ensures Valid() && fresh(gen) && this.fits == fits && this.base == base && this.log == log
      ensures Map() == Fold(base.db, Mutations(log, base.applied))
      ensures HighestSeen(gen.counters, base, log) && overlay == Republished(Listed(log, base.applied))
      ensures nextTx == if MaxTx(log, 0) > base.applied then MaxTx(log, 0) else base.applied
    {
      hide Stored, Sound, Reopenable, View, MaxTx, Fold, Mutations, HighestSeen;
      var counters := new Generator();
      var last, changes, names := Rebuild(base, log, counters);
      this.fits, this.base, this.log := fits, base, log;
      gen, nextTx, overlay, classes := counters, last, changes, names;
    }

    /** An entry goes to the log, and once it is durable to the overlay. */
    method Submit(entry: Entry, deleted: bool) returns (ok: bool)
      requires Stored(base, log, overlay, nextTx) && Named(entry) && deleted == entry.Removes()
      requires OnlyRows(Effect(Map(), entry)) && ObjectsHaveClasses(Effect(Map(), entry))
      modifies this`log, this`nextTx, this`overlay
      ensures Stored(base, log, overlay, nextTx) && ok == fits(entry)
      ensures Map() == if ok then Effect(old(Map()), entry) else old(Map())
      ensures nextTx == old(nextTx) + 1 && log == old(log) + if ok then [LogEntry(nextTx, entry)] else []
      ensures overlay == if ok then old(overlay)[entry.Key() := Over(nextTx, DeltaOf(entry))] else old(overlay)
    {
      hide *;
      MapIs(this);
      SingleEntry(entry);
      StoredParts(base, log, overlay, nextTx);
      var tx := nextTx + 1;
      nextTx := tx;
      if !fits(entry) {
        BurnedNumber(base, log, overlay, tx - 1);
        MapIs(this);
        Whole(log);
        return false;
      }
      PublishStarts(overlay, base, log, tx - 1);
      PublishNext(overlay, base, log, tx, [entry], 0);
      ViewStep(base.db, overlay, entry, tx);
      EntryDelta(entry);
      OneMoreRow(overlay, entry, tx);
      overlay := overlay[entry.Key() := Over(tx, if deleted then Deleted else Data(entry.data))];
      PublishEnds(overlay, base, log, tx - 1, entry);
      LoggedIntact(base, log, overlay, tx, LogEntry(tx, entry));
      log := log + [LogEntry(tx, entry)];
      StoredParts(base, log, overlay, tx);
      MapIs(this);
      return true;
    }

    method ClassPresent(project: bytes, cls: bytes) returns (present: bool)
      requires Valid()
      ensures present <==> HasClass(Map(), project, cls)
    {
      SoundClasses(Map(), classes, gen.counters);
      ScopeIsClass(classes, Map(), project, cls);
      present := ScopeKey(project, cls) in classes;
    }

    /** Adds a class. Names are 1 to 128 of the letters, digits and signs that are listed; a project
        may also be the empty one. */
    method CreateClass(project: bytes, name: bytes) returns (fault: Option<Fault>)
      requires Valid()
      modifies this
      ensures Valid() && gen == old(gen)
      ensures fault == Some(InvalidName) <==>
                || name == [] || |name| > 128 || |project| > 128
                || !forall c :: c in name + project ==>
                     || 'a' as int <= c <= 'z' as int || 'A' as int <= c <= 'Z' as int || '0' as int <= c <= '9' as int
                     || c == '_' as int || c == '-' as int || c == '.' as int
      ensures var e := Entry(Op.CreateClass, project, name, 0, [], []);
              fault == if !ValidName(name) || !ValidProject(project) then Some(InvalidName)
                       else if ClassKey(project, name) in old(Map()) then Some(ClassExists)
                       else if !fits(e) then Some(TooLarge) else None
      ensures Map() == if fault == None then old(Map())[ClassKey(project, name) := []] else old(Map())
      ensures log == old(log) + if fault == None then [LogEntry(nextTx, Entry(Op.CreateClass, project, name, 0, [], []))] else []
    {
      hide Mirrors, Logged, View, ClassKey, ScopeKey, Sound, ValidName, ValidProject;
      NamesAre(project, name);
      Whole(log);
      if !ValidName(name) || !ValidProject(project) {
        return Some(InvalidName);
      }
      ValidIsZeroFree(name);
      ValidIsZeroFree(project);
      ValidIsShort(project, name);
      var present := ClassPresent(project, name);
      if present {
        return Some(Fault.ClassExists);
      }
      var e := Entry(Op.CreateClass, project, name, 0, [], []);
      SoundStep(Map(), classes, gen.counters, gen.counters, e);
      SoundRows(Effect(Map(), e), ClassesAfter(classes, e), gen.counters);
      var ok := Submit(e, false);
      if !ok {
        return Some(TooLarge);
      }
      classes := classes + {ScopeKey(project, name)};
      return None;
    }

    /** Drops a class that holds no object, and forgets its counter. */
    method DropClass(project: bytes, name: bytes) returns (fault: Option<Fault>)
      requires Valid()
      modifies this, gen
      ensures Valid() && gen == old(gen)
      ensures fault == Some(NoClass) <==> !HasClass(old(Map()), project, name)
      ensures fault == Some(ClassNotEmpty) <==>
                HasClass(old(Map()), project, name) && exists id: int64 :: ObjectKey(project, name, id) in old(Map())
      ensures fault == Some(TooLarge) <==>
                && HasClass(old(Map()), project, name) && !fits(Entry(Op.DropClass, project, name, 0, [], []))
                && forall id: int64 :: ObjectKey(project, name, id) !in old(Map())
      ensures fault == None || fault == Some(NoClass) || fault == Some(ClassNotEmpty) || fault == Some(TooLarge)
      ensures Map() == if fault == None then old(Map()) - {ClassKey(project, name)} else old(Map())
      ensures log == old(log) + if fault == None then [LogEntry(nextTx, Entry(Op.DropClass, project, name, 0, [], []))] else []
      ensures fault == None ==> Count(gen.counters, ScopeKey(project, name)) == 0
      ensures fault == None ==>
                forall s :: s != ScopeKey(project, name) ==> Count(gen.counters, s) == Count(old(gen.counters), s)
      ensures fault != None ==> gen.counters == old(gen.counters)
    {
      hide Stored, View, ClassKey, ScopeKey, Sound, ObjectKey, Page;
      Whole(log);
      var present := ClassPresent(project, name);
      if !present {
        return Some(NoClass);
      }
      var r, ids := QueryObjects(project, name, None, 1, 0);
      NobodyLeft(Map(), project, name, ids);
      if |r.value| > 0 {
        return Some(ClassNotEmpty);
      }
      var e := Entry(Op.DropClass, project, name, 0, [], []);
      ClassIsShort(Map(), classes, gen.counters, project, name);
      NoneSelected(Map(), classes, gen.counters, e);
      DropIsSound(Map(), classes, gen.counters, e);
      SoundRows(Effect(Map(), e), classes - {ScopeKey(project, name)}, gen.counters - {ScopeKey(project, name)});
      var ok := Submit(e, true);
      if !ok {
        return Some(TooLarge);
      }
      classes := classes - {ScopeKey(project, name)};
      gen.Drop(ScopeKey(project, name));
      return None;
    }

    /** Stores a new object under an id no present object of the class has. */
    method CreateObject(project: bytes, cls: bytes, data: bytes) returns (r: Answer<int64>)
      requires Valid() && Count(gen.counters, ScopeKey(project, cls)) < MAX_ID
      modifies this, gen
      ensures Valid() && gen == old(gen)
      ensures var id := Count(old(gen.counters), ScopeKey(project, cls)) + 1;
              && (HasClass(old(Map()), project, cls) ==> ObjectKey(project, cls, id) !in old(Map()))
              && r == (if !HasClass(old(Map()), project, cls) then Failed(NoClass)
                       else if !fits(Entry(Op.Put, project, cls, id, data, [])) then Failed(TooLarge)
                       else Got(id))
              && Map() == (if r.Got? then old(Map())[ObjectKey(project, cls, id) := data] else old(Map()))
              && log == old(log) + if r.Got? then [LogEntry(nextTx, Entry(Op.Put, project, cls, id, data, []))] else []
      ensures var scope := ScopeKey(project, cls);
              gen.counters == if HasClass(old(Map()), project, cls)
                              then old(gen.counters)[scope := Count(old(gen.counters), scope) + 1] else old(gen.counters)
    {
      hide Stored, View, ClassKey, ScopeKey, Sound, ObjectKey, Count;
      Whole(log);
      var present := ClassPresent(project, cls);
      if !present {
        return Failed(NoClass);
      }
      NewIdIsFree(Map(), classes, gen.counters, project, cls);
      ghost var before := gen.counters;
      var id := gen.Next(ScopeKey(project, cls));
      var e := Entry(Op.Put, project, cls, id, data, []);
      CountersGrow(before, gen.counters, ScopeKey(project, cls));
      SoundStep(Map(), classes, before, gen.counters, e);
      SoundRows(Effect(Map(), e), ClassesAfter(classes, e), gen.counters);
      SoundLater(Map(), classes, before, gen.counters);
      var ok := Submit(e, false);
      if !ok {
        return Failed(TooLarge);
      }
      return Got(id);
    }

    method GetObject(project: bytes, cls: bytes, id: int64) returns (r: Answer<Option<bytes>>)
      requires Valid()
      ensures r == if HasClass(Map(), project, cls) then Got(KVLists.Lookup(Map(), ObjectKey(project, cls, id))) else Failed(NoClass)
    {
      hide Stored, View, Sound, ObjectKey;
      var present := ClassPresent(project, cls);
      if !present {
        return Failed(NoClass);
      }
      var v := LookupKey(ObjectKey(project, cls, id));
      return Got(v);
    }

    /** The overlay first, then the active generation. */
    method LookupKey(key: bytes) returns (v: Option<bytes>)
      requires Valid()
      ensures v == KVLists.Lookup(Map(), key)
    {
      ViewLookup(base.db, overlay, key);
      hide View, Stored, Sound;
      if key in overlay {
        return if overlay[key].delta.Deleted? then None else Some(overlay[key].delta.data);
      }
      return if key in base.db then Some(base.db[key]) else None;
    }

    /** Replaces the data of a present object. */
    method PutObject(project: bytes, cls: bytes, id: int64, data: bytes) returns (fault: Option<Fault>)
      requires Valid()
      modifies this
      ensures Valid() && gen == old(gen)
      ensures fault == if !HasClass(old(Map()), project, cls) then Some(NoClass)
                       else if ObjectKey(project, cls, id) !in old(Map()) then Some(NotFound)
                       else if !fits(Entry(Op.Put, project, cls, id, data, [])) then Some(TooLarge) else None
      ensures Map() == if fault == None then old(Map())[ObjectKey(project, cls, id) := data] else old(Map())
      ensures log == old(log) + if fault == None then [LogEntry(nextTx, Entry(Op.Put, project, cls, id, data, []))] else []
    {
      hide Stored, View, ClassKey, ScopeKey, Sound, ObjectKey, Count;
      Whole(log);
      var present := ClassPresent(project, cls);
      if !present {
        return Some(NoClass);
      }
      var v := LookupKey(ObjectKey(project, cls, id));
      if v == None {
        return Some(NotFound);
      }
      var e := Entry(Op.Put, project, cls, id, data, []);
      PresentId(Map(), classes, gen.counters, project, cls, id);
      SoundStep(Map(), classes, gen.counters, gen.counters, e);
      SoundRows(Effect(Map(), e), ClassesAfter(classes, e), gen.counters);
      var ok := Submit(e, false);
      return if ok then None else Some(TooLarge);
    }

    method DeleteObject(project: bytes, cls: bytes, id: int64) returns (fault: Option<Fault>)
      requires Valid()
      modifies this
      ensures Valid() && gen == old(gen)
      ensures fault == if !HasClass(old(Map()), project, cls) then Some(NoClass)
                       else if ObjectKey(project, cls, id) !in old(Map()) then Some(NotFound)
                       else if !fits(Entry(Op.Delete, project, cls, id, [], [])) then Some(TooLarge) else None
      ensures Map() == if fault == None then old(Map()) - {ObjectKey(project, cls, id)} else old(Map())
      ensures log == old(log) + if fault == None then [LogEntry(nextTx, Entry(Op.Delete, project, cls, id, [], []))] else []
    {
      hide Stored, View, ClassKey, ScopeKey, Sound, ObjectKey, Count;
      Whole(log);
      var present := ClassPresent(project, cls);
      if !present {
        return Some(NoClass);
      }
      var v := LookupKey(ObjectKey(project, cls, id));
      if v == None {
        return Some(NotFound);
      }
      var e := Entry(Op.Delete, project, cls, id, [], []);
      PresentId(Map(), classes, gen.counters, project, cls, id);
      SoundStep(Map(), classes, gen.counters, gen.counters, e);
      SoundRows(Effect(Map(), e), ClassesAfter(classes, e), gen.counters);
      var ok := Submit(e, true);
      return if ok then None else Some(TooLarge);
    }

    /**
     * Stores many new objects with one record: all of them under fresh ids and nothing else, or,
     * when the record is refused, none.
     */
    method CreateObjectsBulk(project: bytes, cls: bytes, datas: seq<bytes>) returns (r: Answer<seq<int64>>)
      requires Valid() && Count(gen.counters, ScopeKey(project, cls)) + |datas| <= MAX_ID
      modifies this, gen
      ensures Valid() && gen == old(gen)
      ensures r == Failed(NoClass) <==> !HasClass(old(Map()), project, cls)
      ensures var first := Count(old(gen.counters), ScopeKey(project, cls));
              r == Failed(TooLarge) <==> HasClass(old(Map()), project, cls) && datas != [] && !fits(BatchOf(project, cls, first, datas))
      ensures r.Failed? ==> Map() == old(Map()) && (r.fault == NoClass || r.fault == TooLarge)
      ensures r.Got? ==> Added(old(Map()), Map(), project, cls, r.value, datas)
      ensures r.Got? ==> forall i :: 0 <= i < |r.value| ==> r.value[i] == Count(old(gen.counters), ScopeKey(project, cls)) + 1 + i
      ensures log == old(log) + if r.Got? && datas != []
                                then [LogEntry(nextTx, BatchOf(project, cls, Count(old(gen.counters), ScopeKey(project, cls)), datas))]
                                else []
      ensures var scope := ScopeKey(project, cls);
              && (forall s :: s != scope ==> Count(gen.counters, s) == Count(old(gen.counters), s))
              && Count(gen.counters, scope) ==
                 Count(old(gen.counters), scope) + if HasClass(old(Map()), project, cls) then |datas| else 0
    {
      Whole(log);
      hide Stored, View, ClassKey, ScopeKey, Sound, ObjectKey, Count, Added, Puts;
      var present := ClassPresent(project, cls);
      NothingAdded(Map(), project, cls);
      if !present {
        return Failed(NoClass);
      }
      if |datas| == 0 {
        return Got([]);
      }
      ghost var first, db := Count(gen.counters, ScopeKey(project, cls)), Map();
      NewIdsAreFree(db, classes, gen.counters, project, cls, first);
      var ids, subs := AssignIds(project, cls, datas);
      SoundLater(db, classes, old(gen.counters), gen.counters);
      nextTx := nextTx + 1;
      var batch := Entry(Op.Batch, [], [], 0, [], subs);
      if !fits(batch) {
        BurnedNumber(base, log, overlay, nextTx - 1);
        MapIs(this);
        return Failed(TooLarge);
      }
      PublishBatch(batch, ids, datas, project, cls, first, db);
      return Got(ids);
    }

    /** The ids of a bulk create, drawn one after the other, and its sub-entries. */
    method AssignIds(project: bytes, cls: bytes, datas: seq<bytes>) returns (ids: seq<int64>, subs: seq<Entry>)
      requires Count(gen.counters, ScopeKey(project, cls)) + |datas| <= MAX_ID
      modifies gen
      ensures var first := Count(old(gen.counters), ScopeKey(project, cls));
              && ids == Ids(first, |datas|) && subs == Puts(project, cls, first, datas)
              && Count(gen.counters, ScopeKey(project, cls)) == first + |datas|
      ensures forall s :: Count(gen.counters, s) >= Count(old(gen.counters), s)
      ensures forall s :: s != ScopeKey(project, cls) ==> Count(gen.counters, s) == Count(old(gen.counters), s)
    {
      hide ScopeKey;
      ghost var first := Count(gen.counters, ScopeKey(project, cls));
      ids, subs := [], [];
      var i := 0;
      while i < |datas|
        invariant 0 <= i <= |datas| && Count(gen.counters, ScopeKey(project, cls)) == first + i
        invariant ids == Ids(first, i) && subs == Puts(project, cls, first, datas[..i])
        invariant forall s :: Count(gen.counters, s) >= Count(old(gen.counters), s)
        invariant forall s :: s != ScopeKey(project, cls) ==> Count(gen.counters, s) == Count(old(gen.counters), s)
      {
        var id := gen.Next(ScopeKey(project, cls));
        ids := ids + [id];
        subs := subs + [Entry(Op.Put, project, cls, id, datas[i], [])];
        i := i + 1;
      }
      Whole(datas);
    }

    /** Publishes all changes of a logged batch under the one number of its record. */
    method PublishBatch(batch: Entry, ghost ids: seq<int64>, ghost datas: seq<bytes>, project: bytes, cls: bytes,
                        ghost first: nat, ghost db: Db)
      requires nextTx > 0 && Stored(base, log, overlay, nextTx - 1) && db == Map() && Sound(db, classes, gen.counters)
      requires HasClass(db, project, cls) && first + |datas| <= Count(gen.counters, ScopeKey(project, cls)) <= MAX_ID
      requires batch.op.Batch? && batch.sub == Puts(project, cls, first, datas) && ids == Ids(first, |datas|)
      requires forall id: int64 :: id > first ==> ObjectKey(project, cls, id) !in db
      modifies this`log, this`overlay
      ensures Stored(base, log, overlay, nextTx) && Sound(Map(), classes, gen.counters)
      ensures Added(db, Map(), project, cls, ids, datas) && log == old(log) + [LogEntry(nextTx, batch)]
      ensures overlay == PutAll(old(overlay), nextTx, batch.sub)
    {
      hide *;
      HasClassNames(db, project, cls);
      StoredParts(base, log, overlay, nextTx - 1);
      PublishStarts(overlay, base, log, nextTx - 1);
      NothingAdded(db, project, cls);
      BatchParts(batch, project, cls, first, datas, nextTx);
      MapIs(this);
      ghost var subs := Puts(project, cls, first, datas);
      PutAllNone(overlay, nextTx, subs);
      var i := 0;
      while i < |batch.sub|
        invariant 0 <= i <= |batch.sub| == |datas| && Publishing(overlay, base, log, nextTx, subs[..i])
        invariant OverlayRows(overlay) && Sound(View(base.db, overlay), classes, gen.counters)
        invariant Added(db, View(base.db, overlay), project, cls, Ids(first, i), datas[..i])
        invariant overlay == PutAll(old(overlay), nextTx, subs[..i])
        modifies this`overlay
      {
        var sub := batch.sub[i];
        PutAt(project, cls, first, datas, i, gen.counters);
        ClassStillThere(View(base.db, overlay), classes, gen.counters, db, project, cls, Ids(first, i), datas[..i], sub);
        SoundStep(View(base.db, overlay), classes, gen.counters, gen.counters, sub);
        PutEffect(View(base.db, overlay), classes, sub);
        AddedNext(db, View(base.db, overlay), project, cls, first, datas, i);
        PublishNext(overlay, base, log, nextTx, subs, i);
        PutAllNext(old(overlay), nextTx, subs, i);
        EntryDelta(sub);
        ViewStep(base.db, overlay, sub, nextTx);
        OneMoreRow(overlay, sub, nextTx);
        overlay := overlay[sub.Key() := Over(nextTx, Data(sub.data))];
        i := i + 1;
      }
      Whole(subs);
      Whole(datas);
      PublishEnds(overlay, base, log, nextTx - 1, batch);
      SoundRows(View(base.db, overlay), classes, gen.counters);
      LoggedIntact(base, log, overlay, nextTx, LogEntry(nextTx, batch));
      log := log + [LogEntry(nextTx, batch)];
      StoredParts(base, log, overlay, nextTx);
      MapIs(this);
    }

    /** Folds the log into a new generation, then prunes what it holds from the overlay. */
    method Checkpoint()
      requires Valid()
      modifies this
      ensures Valid() && gen == old(gen) && Map() == old(Map())
      ensures base.db == old(Map()) && base == Compact(old(base), old(log))
      ensures log == [] && overlay == map[] && nextTx == old(nextTx)
    {
      hide *;
      ValidParts(this);
      StoredParts(base, log, overlay, nextTx);
      FoldedAway(overlay, base, log, nextTx);
      MapIs(this);
      var deltas, sorted, folded := ParseDeltas(log, base.applied);
      CompactIs(base, log);
      base := Gen(Merge(base.db, deltas), folded);
      log := [];
      var left := Prune(overlay, folded);
      NothingLeft(overlay, folded, left);
      EmptyView(base.db);
      SoundRows(base.db, classes, gen.counters);
      overlay := left;
      EmptyStored(base, nextTx);
      MapIs(this);
      StillValid(this);
    }

    /** A page of a class's objects that pass the filter, in ascending id order. */
    method QueryObjects(project: bytes, cls: bytes, filter: Option<Filter>, limit: int, offset: int)
      returns (r: Answer<seq<Object>>, ghost ids: seq<int64>)
      requires Valid()
      ensures r == Failed(NoClass) <==> !HasClass(Map(), project, cls)
      ensures r == Failed(FilterFailed) <==>
                HasClass(Map(), project, cls) && FilterFailsOn(Map(), project, cls, filter)
      ensures r.Failed? ==> r.fault == NoClass || r.fault == FilterFailed
      ensures r.Got? ==> ListsIds(ids, Map(), project, cls, filter)
      ensures r.Got? ==> ShowsPage(r.value, Map(), project, cls, ids, limit, offset)
    {
      hide *;
      ids := [];
      ValidParts(this);
      var present := ClassPresent(project, cls);
      HasClassNames(Map(), project, cls);
      if !present {
        return Failed(NoClass), [];
      }
      var stored := ScanObjects(base.db, project, cls);
      var merged := MergeOverlay(stored, overlay, project, cls, base.db);
      MapIs(this);
      MergedObjects(merged, Map(), project, cls, filter);
      var chosen := Select(merged, filter);
      FilterFails(merged, Map(), project, cls, filter);
      if chosen.Err? {
        return Failed(FilterFailed), [];
      }
      var sorted := SortIds(chosen.value);
      ids := sorted;
      var page := TakePage(sorted, limit, offset);
      IdsShown(sorted, merged, Map(), project, cls, filter);
      PageShown(merged, Map(), project, cls, sorted, limit, offset);
      return Got(Objects(merged, page)), sorted;
    }
  }

  /** Removes every overlay entry whose record is in the new snapshot. */
  method Prune(overlay: Overlay, folded: nat) returns (left: Overlay)
    ensures left == map k | k in overlay && overlay[k].tx > folded :: overlay[k]
  {
    left := overlay;
    var keys := overlay.Keys;
    while keys != {}
      invariant keys <= overlay.Keys
      invariant left == map k | k in overlay && (k in keys || overlay[k].tx > folded) :: overlay[k]
    {
      var k :| k in keys;
      keys := keys - {k};
      if overlay[k].tx <= folded {
        left := left - {k};
      }
    }
  }

  /**
   * Stopping an engine and opening its directory again, having lost the records of the log behind
   * the first `kept`: the new engine stands for the base with exactly the kept records applied,
   * each of them whole, and for the same map if none was lost.
   */
  method Restart(e: Engine, kept: nat) returns (again: Engine)
    requires e.Valid() && kept <= |e.log|
    ensures fresh(again) && again.Valid()
    ensures again.Map() == Fold(e.base.db, Mutations(e.log[..kept], e.base.applied))
    ensures kept == |e.log| ==> again.Map() == e.Map()
  {
    hide *;
    CanReopen(e, kept);
    Whole(e.log);
    again := new Engine.Open(e.fits, e.base, e.log[..kept]);
  }

  lemma NothingSeen(counters: map<bytes, nat>, base: Gen, scope: bytes)
    requires HighestSeen(counters, base, []) && forall k :: k in base.db ==> DecodeObjectKey(k).None?
    ensures Count(counters, scope) == 0
  {
    hide Count, DecodeObjectKey;
    assert PutKeys(Mutations([], base.applied)) == [];
  }

  lemma FreshDatabase()
    ensures Reopenable(Gen(map[], 0), []) && Fold(map[], Mutations([], 0)) == map[]
  {
    ReopenableEmpty(Gen(map[], 0));
  }

  /** Where only the class row is left, no id of the class is. */
  lemma OnlyTheClass(counters: map<bytes, nat>, base: Gen, cls: bytes)
    requires HighestSeen(counters, base, []) && ZeroFree(cls) && base.db.Keys <= {ClassKey([], cls)}
    ensures Count(counters, ScopeKey([], cls)) == 0
  {
    DecodeClassInverts([], cls);
    hide ClassKey, ScopeKey, HighestSeen;
    NothingSeen(counters, base, ScopeKey([], cls));
  }

  lemma CreatedAndDeleted(db: Db, cls: bytes, data: bytes)
    requires db.Keys <= {} && ZeroFree(cls)
    ensures ObjectKey([], cls, 1) != ClassKey([], cls)
    ensures (db[ClassKey([], cls) := []][ObjectKey([], cls, 1) := data] - {ObjectKey([], cls, 1)}).Keys <= {ClassKey([], cls)}
  {
    KeysInjective([], cls, 1, [], cls, 1);
    hide ClassKey, ObjectKey;
  }

  /**
   * Ids can come back: the only object of a class, deleted and compacted away, leaves no trace, and
   * after a restart its id is given out again.
   */
  method IdIsReused(fits: Entry -> bool, cls: bytes, data: bytes) returns (first: int64, second: int64)
    requires ValidName(cls) && forall e :: fits(e)
    ensures first == second == 1
  {
    hide Sound, Stored, HighestSeen, ScopeKey, ClassKey, ObjectKey, Reopenable, Count, View, DecodeObjectKey, Fold,
      Mutations, ValidName;
    FreshDatabase();
    ValidIsZeroFree(cls);
    CreatedAndDeleted(map[], cls, data);
    var e := new Engine.Open(fits, Gen(map[], 0), []);
    OnlyTheClass(e.gen.counters, e.base, cls);
    var fault := e.CreateClass([], cls);
    var one := e.CreateObject([], cls, data);
    first := one.value;
    fault := e.DeleteObject([], cls, first);
    e.Checkpoint();
    CanReopen(e, 0);
    var again := new Engine.Open(fits, e.base, e.log);
    OnlyTheClass(again.gen.counters, again.base, cls);
    var two := again.CreateObject([], cls, data);
    second := two.value;
  }

  /** The filter returns an error for some object of the class. */
  ghost predicate FilterFailsOn(db: Db, project: bytes, cls: bytes, filter: Option<Filter>) {
    filter.Some? && exists id: int64 :: var k := ObjectKey(project, cls, id); k in db && filter.value(db[k]).Err?
  }

  /** In ascending order, exactly the ids of the class's objects for which the filter, if any, says yes. */
  ghost predicate ListsIds(ids: seq<int64>, db: Db, project: bytes, cls: bytes, filter: Option<Filter>) {
    && (forall i, j :: 0 <= i < j < |ids| ==> ids[i] < ids[j])
    && forall id: int64 ::
         id in ids <==> var k := ObjectKey(project, cls, id);
                        k in db && (filter == None || filter.value(db[k]) == Ok(true))
  }

  /** The objects shown are those of the ids from the offset on, clamped to the list, each with its data:
      as many as the limit allows if it is positive, and otherwise all. */
  ghost predicate ShowsPage(shown: seq<Object>, db: Db, project: bytes, cls: bytes, ids: seq<int64>, limit: int,
                            offset: int) {
    var o := if offset < 0 then 0 else if offset > |ids| then |ids| else offset;
    && |shown| == (if 0 < limit < |ids| - o then limit else |ids| - o)
    && forall i :: 0 <= i < |shown| ==>
         var k := ObjectKey(project, cls, ids[o + i]); k in db && shown[i] == Object(ids[o + i], db[k])
  }

  /**
   * Dropping a class forgets its counter: created again, it starts at id 1, whatever ids it had
   * given out before.
   */
  method RecreatedClassStartsAtOne(e: Engine, project: bytes, name: bytes, data: bytes) returns (id: int64)
    requires e.Valid() && ValidName(name) && ValidProject(project) && forall entry :: e.fits(entry)
    requires HasClass(e.Map(), project, name) && forall id: int64 :: ObjectKey(project, name, id) !in e.Map()
    modifies e, e.gen
    ensures id == 1
  {
    hide Sound, Stored, ScopeKey, ClassKey, ObjectKey, Count, View, ValidName, ValidProject;
    NamesAre(project, name);
    HasClassNames(e.Map(), project, name);
    var fault := e.DropClass(project, name);
    fault := e.CreateClass(project, name);
    NowPresent(e.Map(), project, name);
    var one := e.CreateObject(project, name, data);
    id := one.value;
  }

  lemma NowPresent(db: Db, project: bytes, name: bytes)
    requires ZeroFree(project) && ZeroFree(name) && ClassKey(project, name) in db
    ensures HasClass(db, project, name)
  {
  }

  predicate InClass(db: Db, project: bytes, cls: bytes, id: int64) {
    ObjectKey(project, cls, id) in db
  }

  function ObjectAt(db: Db, project: bytes, cls: bytes, id: int64): bytes {
    if InClass(db, project, cls, id) then db[ObjectKey(project, cls, id)] else []
  }

  lemma ValidParts(e: Engine)
    requires e.Valid()
    ensures Stored(e.base, e.log, e.overlay, e.nextTx)
    ensures OnlyRows(e.base.db) && OverlayRows(e.overlay) && Sound(e.Map(), e.classes, e.gen.counters)
  {
  }

  lemma HasClassNames(db: Db, project: bytes, cls: bytes)
    ensures HasClass(db, project, cls) ==> ZeroFree(project) && ZeroFree(cls) && ClassKey(project, cls) in db
  {
  }

  lemma MergedObjects(m: map<int64, bytes>, db: Db, project: bytes, cls: bytes, filter: Option<Filter>)
    requires ObjectsOf(m, db, project, cls)
    ensures forall id :: id in m <==> InClass(db, project, cls, id)
    ensures forall id :: id in m ==> m[id] == ObjectAt(db, project, cls, id)
  {
    hide ObjectKey;
    forall id: int64
      ensures id in m <==> InClass(db, project, cls, id)
      ensures id in m ==> m[id] == ObjectAt(db, project, cls, id)
    {
      assert Lookup64(m, id) == KVLists.Lookup(db, ObjectKey(project, cls, id));
    }
  }

  lemma FilterFails(m: map<int64, bytes>, db: Db, project: bytes, cls: bytes, filter: Option<Filter>)
    requires forall id :: id in m <==> InClass(db, project, cls, id)
    requires forall id :: id in m ==> m[id] == ObjectAt(db, project, cls, id)
    ensures (exists id :: id in m && Fails(filter, m[id])) <==> FilterFailsOn(db, project, cls, filter)
  {
    hide ObjectKey;
    if filter.Some? {
      if id: int64 :| var k := ObjectKey(project, cls, id); k in db && filter.value(db[k]).Err? {
        assert InClass(db, project, cls, id) && Fails(filter, m[id]);
      }
      if id :| id in m && Fails(filter, m[id]) {
        assert ObjectKey(project, cls, id) in db;
      }
    }
  }

  /** The ids that a query lists, in terms of the map. */
  lemma IdsShown(ids: seq<int64>, m: map<int64, bytes>, db: Db, project: bytes, cls: bytes, filter: Option<Filter>)
    requires AscendingIds(ids) && forall id :: id in ids <==> id in m && Keeps(filter, m[id])
    requires forall id :: id in m <==> InClass(db, project, cls, id)
    requires forall id :: id in m ==> m[id] == ObjectAt(db, project, cls, id)
    ensures ListsIds(ids, db, project, cls, filter)
  {
    hide ObjectKey;
    forall id: int64
      ensures id in m <==> ObjectKey(project, cls, id) in db
    {
      assert id in m <==> InClass(db, project, cls, id);
    }
  }

  /** The page that a query shows of its ids, each with the data it has in the map. */
  lemma PageShown(m: map<int64, bytes>, db: Db, project: bytes, cls: bytes, ids: seq<int64>, limit: int, offset: int)
    requires forall id :: id in ids ==> id in m
    requires forall id :: id in m ==> InClass(db, project, cls, id) && m[id] == ObjectAt(db, project, cls, id)
    ensures forall id :: id in Page(ids, limit, offset) ==> id in m
    ensures ShowsPage(Objects(m, Page(ids, limit, offset)), db, project, cls, ids, limit, offset)
  {
    hide ObjectKey;
    PageIs(ids, limit, offset);
    var page := Page(ids, limit, offset);
    forall id | id in page
      ensures id in m
    {
      var i :| 0 <= i < |page| && page[i] == id;
    }
    hide Page;
    forall i | 0 <= i < |page|
      ensures InClass(db, project, cls, page[i])
    {
      assert page[i] in page;
    }
  }

  lemma CanReopen(e: Engine, kept: nat)
    requires e.Valid() && kept <= |e.log|
    ensures Reopenable(e.base, e.log[..kept]) && e.Map() == Fold(e.base.db, Mutations(e.log, e.base.applied))
  {
    ViewIsFold(e.overlay, e.base, e.log);
    hide Mirrors, View, Fold, Mutations, Logged, OverlayRows, Sound, Reopenable, OnlyRows;
    CutReopenable(e.base, e.log, kept);
  }

  lemma NothingLeft(overlay: Overlay, folded: nat, left: Overlay)
    requires left == map k | k in overlay && overlay[k].tx > folded :: overlay[k]
    requires forall k :: k in overlay ==> overlay[k].tx <= folded
    ensures left == map[]
  {
  }

  lemma SoundRows(db: Db, classes: set<bytes>, counters: map<bytes, nat>)
    ensures Sound(db, classes, counters) ==> OnlyRows(db) && ObjectsHaveClasses(db)
  {
  }

  lemma CompactIs(base: Gen, log: seq<LogEntry>)
    ensures Compact(base, log) == Gen(Merge(base.db, Net(Mutations(log, base.applied))), MaxTx(log, base.applied))
  {
  }

  lemma EmptyStored(base: Gen, nextTx: nat)
    requires Mirrors(map[], base, []) && Logged(base, [], nextTx) && OnlyRows(base.db) && ObjectsHaveClasses(base.db)
    ensures Stored(base, [], map[], nextTx)
  {
    ReopenableEmpty(base);
    hide Mirrors, OnlyRows, ObjectsHaveClasses, Reopenable;
  }

  lemma EmptyView(db: Db)
    ensures View(db, map[]) == db
  {
  }

  lemma StillValid(e: Engine)
    requires Stored(e.base, e.log, e.overlay, e.nextTx) && Sound(e.Map(), e.classes, e.gen.counters)
    ensures e.Valid()
  {
  }

  // ---- Bulk creation ----

  function Ids(first: nat, n: nat): seq<int64>
    requires first + n <= MAX_ID
  {
    seq(n, i requires 0 <= i < n => first + 1 + i)
  }

  function Puts(project: bytes, cls: bytes, first: nat, datas: seq<bytes>): seq<Entry>
    requires first + |datas| <= MAX_ID
  {
    seq(|datas|, i requires 0 <= i < |datas| => Entry(Op.Put, project, cls, first + 1 + i, datas[i], []))
  }

  function BatchOf(project: bytes, cls: bytes, first: nat, datas: seq<bytes>): Entry
    requires first + |datas| <= MAX_ID
  {
    Entry(Op.Batch, [], [], 0, [], Puts(project, cls, first, datas))
  }

  function KeysOf(project: bytes, cls: bytes, ids: seq<int64>): seq<bytes> {
    seq(|ids|, i requires 0 <= i < |ids| => ObjectKey(project, cls, ids[i]))
  }

  /** `db` is `db0` with exactly these rows added, none of which was there. */
  ghost predicate RowsAdded(db0: Db, db: Db, keys: seq<bytes>, datas: seq<bytes>) {
    && |keys| == |datas|
    && (forall i :: 0 <= i < |keys| ==> keys[i] !in db0 && keys[i] in db && db[keys[i]] == datas[i])
    && (forall k :: k in db0 ==> k in db && db[k] == db0[k])
    && forall k :: k in db && k !in db0 ==> k in keys
  }

  ghost predicate Added(db0: Db, db: Db, project: bytes, cls: bytes, ids: seq<int64>, datas: seq<bytes>) {
    RowsAdded(db0, db, KeysOf(project, cls, ids), datas)
  }

  lemma NothingAdded(db: Db, project: bytes, cls: bytes)
    ensures Added(db, db, project, cls, [], [])
  {
  }

  lemma RowAdded(db0: Db, db: Db, keys: seq<bytes>, datas: seq<bytes>, k: bytes, v: bytes)
    requires RowsAdded(db0, db, keys, datas) && k !in db0 && k !in keys
    ensures RowsAdded(db0, db[k := v], keys + [k], datas + [v])
  {
  }

  lemma AddedNext(db0: Db, db: Db, project: bytes, cls: bytes, first: nat, datas: seq<bytes>, i: nat)
    requires i < |datas| && first + |datas| <= MAX_ID && ZeroFree(project) && ZeroFree(cls)
    requires Added(db0, db, project, cls, Ids(first, i), datas[..i])
    requires forall id: int64 :: id > first ==> ObjectKey(project, cls, id) !in db0
    ensures Added(db0, db[ObjectKey(project, cls, first + 1 + i) := datas[i]], project, cls, Ids(first, i + 1), datas[..i + 1])
  {
    var id: int64 := first + 1 + i;
    TakeNext(datas, i);
    KeysNext(project, cls, first, i);
    NewKey(project, cls, first, i);
    hide ObjectKey, KeysOf, RowsAdded;
    RowAdded(db0, db, KeysOf(project, cls, Ids(first, i)), datas[..i], ObjectKey(project, cls, id), datas[i]);
  }

  lemma KeysNext(project: bytes, cls: bytes, first: nat, i: nat)
    requires first + i < MAX_ID
    ensures KeysOf(project, cls, Ids(first, i + 1)) == KeysOf(project, cls, Ids(first, i)) + [ObjectKey(project, cls, first + 1 + i)]
  {
    hide ObjectKey;
  }

  lemma NewKey(project: bytes, cls: bytes, first: nat, i: nat)
    requires first + i < MAX_ID && ZeroFree(project) && ZeroFree(cls)
    ensures ObjectKey(project, cls, first + 1 + i) !in KeysOf(project, cls, Ids(first, i))
  {
    hide ObjectKey;
    var keys := KeysOf(project, cls, Ids(first, i));
    forall j | 0 <= j < i
      ensures keys[j] != ObjectKey(project, cls, first + 1 + i)
    {
      KeysInjective(project, cls, first + 1 + j, project, cls, first + 1 + i);
    }
  }

  lemma NewIdsAreFree(db: Db, classes: set<bytes>, counters: map<bytes, nat>, project: bytes, cls: bytes, first: nat)
    requires Sound(db, classes, counters) && first == Count(counters, ScopeKey(project, cls))
    requires ZeroFree(project) && ZeroFree(cls)
    ensures forall id: int64 :: id > first ==> ObjectKey(project, cls, id) !in db
  {
    hide ObjectKey, ScopeKey, ClassKey, OnlyRows, ObjectsHaveClasses, ClassesRight, Count;
  }

  lemma BatchParts(batch: Entry, project: bytes, cls: bytes, first: nat, datas: seq<bytes>, tx: nat)
    requires first + |datas| <= MAX_ID && batch.op.Batch? && batch.sub == Puts(project, cls, first, datas)
    requires ZeroFree(project) && ZeroFree(cls)
    ensures batch.Flatten() == batch.sub && |batch.sub| == |datas| && AllNamed(batch.Flatten())
    ensures batch.sub[..0] == [] && datas[..0] == [] && Ids(first, 0) == []
  {
  }

  lemma PutAt(project: bytes, cls: bytes, first: nat, datas: seq<bytes>, i: nat, counters: map<bytes, nat>)
    requires i < |datas| && first + |datas| <= MAX_ID && ZeroFree(project) && ZeroFree(cls)
    requires first + |datas| <= Count(counters, ScopeKey(project, cls))
    ensures var e := Puts(project, cls, first, datas)[i];
            && e == Entry(Op.Put, project, cls, first + 1 + i, datas[i], []) && Named(e) && DeltaOf(e) == Data(datas[i])
            && e.Key() == ObjectKey(project, cls, first + 1 + i) && e.id <= Count(counters, ScopeKey(e.project, e.cls))
  {
    hide ObjectKey, ScopeKey, Count;
  }

  lemma PutEffect(db: Db, classes: set<bytes>, e: Entry)
    requires e.op.Put?
    ensures Effect(db, e) == db[e.Key() := e.data] && ClassesAfter(classes, e) == classes
  {
  }

  lemma ClassStillThere(db: Db, classes: set<bytes>, counters: map<bytes, nat>, db0: Db, project: bytes, cls: bytes,
                        ids: seq<int64>, datas: seq<bytes>, e: Entry)
    requires Added(db0, db, project, cls, ids, datas) && ClassKey(project, cls) in db0
    requires e.op.Put? && e.project == project && e.cls == cls
    ensures Allowed(db, e)
  {
    hide ObjectKey, ClassKey;
  }

  lemma NobodyLeft(db: Db, project: bytes, cls: bytes, ids: seq<int64>)
    requires ListsIds(ids, db, project, cls, None)
    ensures ids == [] <==> forall id: int64 :: ObjectKey(project, cls, id) !in db
  {
    hide ObjectKey;
    if ids != [] {
      assert ids[0] in ids && ObjectKey(project, cls, ids[0]) in db;
    }
    assert forall id: int64 :: ObjectKey(project, cls, id) in db ==> id in ids;
  }

  lemma NoneSelected(db: Db, classes: set<bytes>, counters: map<bytes, nat>, e: Entry)
    requires Sound(db, classes, counters) && ZeroFree(e.project) && ZeroFree(e.cls) && e.op.DropClass?
    requires forall id: int64 :: ObjectKey(e.project, e.cls, id) !in db
    ensures Allowed(db, e)
  {
    forall k | k in db && IsObjectRow(k)
      ensures !SelectedBy(e.project, e.cls, k)
    {
      RowOfClass(k, e.project, e.cls, DecodeObjectKey(k).value.id);
      hide ObjectKey, DecodeObjectKey, SelectedBy;
    }
  }

  lemma ClassIsShort(db: Db, classes: set<bytes>, counters: map<bytes, nat>, project: bytes, cls: bytes)
    requires Sound(db, classes, counters) && HasClass(db, project, cls)
    ensures |ClassKey(project, cls)| <= MAX_CLASS_ROW
  {
    ClassIsNoObject(project, cls);
    hide ClassKey, ObjectKey, ClassesRight, CountersRight, ObjectsHaveClasses;
    assert IsClassRow(ClassKey(project, cls)) || IsObjectRow(ClassKey(project, cls));
  }

  /** Dropping a class also drops its counter, which no object depends on any more. */
  lemma DropIsSound(db: Db, classes: set<bytes>, counters: map<bytes, nat>, e: Entry)
    requires Sound(db, classes, counters) && Named(e) && Allowed(db, e) && e.op.DropClass?
    requires forall id: int64 :: ObjectKey(e.project, e.cls, id) !in db
    ensures Sound(Effect(db, e), classes - {ScopeKey(e.project, e.cls)}, counters - {ScopeKey(e.project, e.cls)})
  {
    SoundStep(db, classes, counters, counters, e);
    var counters' := counters - {ScopeKey(e.project, e.cls)};
    forall p, c, id: int64 | ZeroFree(p) && ZeroFree(c) && ObjectKey(p, c, id) in Effect(db, e)
      ensures id <= Count(counters', ScopeKey(p, c))
    {
      KeysInjective(p, c, id, e.project, e.cls, id);
      hide ObjectKey, ScopeKey, ClassKey;
    }
    hide ObjectKey, ScopeKey, ClassKey, OnlyRows, ObjectsHaveClasses, ClassesRight;
  }

  /** The id after a class's counter belongs to no object: what Next gives out is free. */
  lemma NewIdIsFree(db: Db, classes: set<bytes>, counters: map<bytes, nat>, project: bytes, cls: bytes)
    requires Sound(db, classes, counters) && Count(counters, ScopeKey(project, cls)) < MAX_ID
    requires ZeroFree(project) && ZeroFree(cls)
    ensures ObjectKey(project, cls, Count(counters, ScopeKey(project, cls)) + 1) !in db
  {
    hide ObjectKey, ScopeKey, ClassKey, OnlyRows, ObjectsHaveClasses, ClassesRight, Count;
  }

  lemma CountersGrow(before: map<bytes, nat>, after: map<bytes, nat>, scope: bytes)
    requires after == before[scope := Count(before, scope) + 1]
    ensures forall s :: Count(after, s) >= Count(before, s)
    ensures Count(after, scope) == Count(before, scope) + 1
  {
  }

  lemma SoundLater(db: Db, classes: set<bytes>, counters: map<bytes, nat>, counters': map<bytes, nat>)
    requires Sound(db, classes, counters) && forall s :: Count(counters', s) >= Count(counters, s)
    ensures Sound(db, classes, counters')
  {
    hide ObjectKey, ScopeKey, ClassKey, OnlyRows, ObjectsHaveClasses, ClassesRight;
  }

  lemma PresentId(db: Db, classes: set<bytes>, counters: map<bytes, nat>, project: bytes, cls: bytes, id: int64)
    requires Sound(db, classes, counters) && ZeroFree(project) && ZeroFree(cls) && ObjectKey(project, cls, id) in db
    ensures 0 < id <= Count(counters, ScopeKey(project, cls))
  {
    DecodeObjectInverts(project, cls, id);
    hide ObjectKey, ScopeKey, ClassKey, DecodeObjectKey, DecodeClassKey, ObjectsHaveClasses, ClassesRight;
  }

  lemma MapIs(e: Engine)
    ensures e.Map() == View(e.base.db, e.overlay)
  {
  }

  lemma SingleEntry(e: Entry)
    requires Named(e)
    ensures e.Flatten() == [e] && [e][..0] == [] && [e][..1] == [e] && [e][0] == e && |[e]| == 1 && AllNamed(e.Flatten())
  {
  }

  lemma NamesAre(project: bytes, name: bytes)
    ensures (ValidName(name) && ValidProject(project)) <==>
            && name != [] && |name| <= 128 && |project| <= 128
            && forall c :: c in name + project ==>
                 || 'a' as int <= c <= 'z' as int || 'A' as int <= c <= 'Z' as int || '0' as int <= c <= '9' as int
                 || c == '_' as int || c == '-' as int || c == '.' as int
  {
    var both := name + project;
    assert forall i :: 0 <= i < |name| ==> name[i] == both[i];
    assert forall i :: 0 <= i < |project| ==> project[i] == both[|name| + i];
    assert forall i :: 0 <= i < |name| ==> name[i] in both;
    assert forall i :: 0 <= i < |project| ==> project[i] in both;
  }

  lemma EntryDelta(e: Entry)
    ensures DeltaOf(e) == if e.Removes() then Deleted else Data(e.data)
  {
  }
}
