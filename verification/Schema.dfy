/** What ties the engine's in-memory class set and id counters to the rows of the database. */
module Schema {
  import opened Bytes
  import opened Keys
  import opened Entries
  import opened IdGen

  // ---- Names ----

  predicate NameChar(c: byte) {
    c == 95 || c == 45 || c == 46 || 48 <= c <= 57 || 65 <= c <= 90 || 97 <= c <= 122
  }

  predicate ValidName(name: bytes) {
    0 < |name| <= 128 && forall i :: 0 <= i < |name| ==> NameChar(name[i])
  }

  predicate ValidProject(project: bytes) {
    project == [] || ValidName(project)
  }

  lemma ValidIsZeroFree(name: bytes)
    requires ValidProject(name)
    ensures ZeroFree(name)
  {
  }

  /** A scope key made of two names without separators. */
  predicate IsScope(s: bytes) {
    var i := FirstZero(s);
    i >= 0 && ZeroFree(s[i + 1..])
  }

  lemma {:induction false} FirstZeroAtMost(b: bytes, j: nat)
    requires j < |b| && b[j] == 0
    ensures 0 <= FirstZero(b) <= j
  {
    if b[0] != 0 {
      FirstZeroAtMost(b[1..], j - 1);
    }
  }

  /** Names that contain a separator never make up such a key. */
  lemma ScopeNames(project: bytes, cls: bytes)
    ensures IsScope(ScopeKey(project, cls)) <==> ZeroFree(project) && ZeroFree(cls)
  {
    var s := ScopeKey(project, cls);
    if ZeroFree(project) {
      FirstZeroAfter(project, cls);
      assert s[|project| + 1..] == cls;
    } else {
      var j :| 0 <= j < |project| && project[j] == 0;
      var i := FirstZero(s);
      assert s[j] == 0 && s[|project|] == 0;
      FirstZeroAtMost(s, j);
      assert s[i + 1..][|project| - i - 1] == 0;
    }
  }

  // ---- Rows ----

  /** The longest key of a class row, and so of an object row: two names of 128 bytes. */
  const MAX_CLASS_ROW := 258
  const MAX_ROW := 267

  predicate IsClassRow(k: bytes) {
    match DecodeClassKey(k)
    case None => false
    case Some(n) => ZeroFree(n.project) && ZeroFree(n.cls) && k == ClassKey(n.project, n.cls) && |k| <= MAX_CLASS_ROW
  }

  predicate IsObjectRow(k: bytes) {
    match DecodeObjectKey(k)
    case None => false
    case Some(n) => ZeroFree(n.project) && ZeroFree(n.cls) && n.id > 0 && k == ObjectKey(n.project, n.cls, n.id)
  }

  ghost predicate OnlyRows(db: Db) {
    forall k :: k in db ==> IsClassRow(k) || IsObjectRow(k)
  }

  ghost predicate ObjectsHaveClasses(db: Db) {
    forall p, c, id: int64 :: ZeroFree(p) && ZeroFree(c) && ObjectKey(p, c, id) in db ==> ClassKey(p, c) in db
  }

  /** The class set is exactly the set of class rows. */
  ghost predicate ClassesRight(classes: set<bytes>, db: Db) {
    && (forall s :: s in classes ==> IsScope(s))
    && forall p, c :: ZeroFree(p) && ZeroFree(c) ==> (ScopeKey(p, c) in classes <==> ClassKey(p, c) in db)
  }

  /** No object has an id above its class's counter. */
  ghost predicate CountersRight(counters: map<bytes, nat>, db: Db) {
    forall p, c, id: int64 :: ZeroFree(p) && ZeroFree(c) && ObjectKey(p, c, id) in db ==> id <= Count(counters, ScopeKey(p, c))
  }

  // ---- One entry more ----

  /** An entry as the engine makes them: a known operation on names without separators, and on
      classes whose names are not too long. */
  predicate Named(e: Entry) {
    && e.Known() && ZeroFree(e.project) && ZeroFree(e.cls) && (e.op.Put? || e.op.Delete? ==> e.id > 0)
    && (e.op.CreateClass? || e.op.DropClass? ==> |ClassKey(e.project, e.cls)| <= MAX_CLASS_ROW)
  }

  lemma ValidIsShort(project: bytes, cls: bytes)
    requires ValidProject(project) && ValidName(cls)
    ensures |ClassKey(project, cls)| <= MAX_CLASS_ROW
  {
  }

  /** Every row of an engine has a short key: an object's is 9 bytes longer than its class's. */
  lemma RowsAreShort(db: Db, k: bytes)
    requires OnlyRows(db) && ObjectsHaveClasses(db) && k in db
    ensures |k| <= MAX_ROW
  {
    hide ClassKey, ObjectKey, ZeroFree, DecodeClassKey, DecodeObjectKey;
    if IsObjectRow(k) {
      var n := DecodeObjectKey(k).value;
      var c := ClassKey(n.project, n.cls);
      assert c in db;
      ClassIsNoObject(n.project, n.cls);
      assert IsClassRow(c);
      ObjectKeyLength(n.project, n.cls, n.id);
    }
  }

  lemma ClassIsNoObject(project: bytes, cls: bytes)
    requires ZeroFree(project) && ZeroFree(cls)
    ensures !IsObjectRow(ClassKey(project, cls))
  {
    DecodeClassInverts(project, cls);
  }

  lemma ObjectKeyLength(project: bytes, cls: bytes, id: int64)
    ensures |ObjectKey(project, cls, id)| == |ClassKey(project, cls)| + 9
  {
  }

  function ClassesAfter(classes: set<bytes>, e: Entry): set<bytes> {
    if e.op.CreateClass? then classes + {ScopeKey(e.project, e.cls)}
    else if e.op.DropClass? then classes - {ScopeKey(e.project, e.cls)}
    else classes
  }

  lemma ClassesStep(classes: set<bytes>, db: Db, e: Entry)
    requires ClassesRight(classes, db) && Named(e)
    ensures ClassesRight(ClassesAfter(classes, e), Effect(db, e))
  {
    ScopeNames(e.project, e.cls);
    forall p, c | ZeroFree(p) && ZeroFree(c)
      ensures ScopeKey(p, c) in ClassesAfter(classes, e) <==> ClassKey(p, c) in Effect(db, e)
    {
      KeysInjective(e.project, e.cls, e.id, p, c, 0);
      KeysInjective(p, c, 0, e.project, e.cls, e.id);
      hide ScopeKey, ClassKey, ObjectKey;
    }
  }

  /** Counters that only grew, and cover the new object if there is one, stay right. */
  lemma CountersStep(counters: map<bytes, nat>, counters': map<bytes, nat>, db: Db, e: Entry)
    requires CountersRight(counters, db) && Named(e)
    requires forall s :: Count(counters', s) >= Count(counters, s)
    requires e.op.Put? ==> e.id <= Count(counters', ScopeKey(e.project, e.cls))
    ensures CountersRight(counters', Effect(db, e))
  {
    forall p, c, id: int64 | ZeroFree(p) && ZeroFree(c) && ObjectKey(p, c, id) in Effect(db, e)
      ensures id <= Count(counters', ScopeKey(p, c))
    {
      KeysInjective(p, c, id, e.project, e.cls, e.id);
      hide ScopeKey, ClassKey, ObjectKey;
      assert Count(counters', ScopeKey(p, c)) >= Count(counters, ScopeKey(p, c));
    }
  }

  lemma EntryRow(e: Entry)
    requires Named(e)
    ensures IsClassRow(e.Key()) || IsObjectRow(e.Key())
  {
    DecodeObjectInverts(e.project, e.cls, e.id);
    DecodeClassInverts(e.project, e.cls);
    hide ClassKey, ObjectKey, DecodeObjectKey, DecodeClassKey;
  }

  lemma RowsStep(db: Db, e: Entry)
    requires OnlyRows(db) && Named(e)
    ensures OnlyRows(Effect(db, e))
  {
    EntryRow(e);
    hide IsClassRow, IsObjectRow, Entry.Key;
  }

  /** A class row goes only when no object of the class is left; an object comes only with its class. */
  predicate Allowed(db: Db, e: Entry) {
    && (e.op.Put? ==> ClassKey(e.project, e.cls) in db)
    && (e.op.DropClass? ==> forall k :: k in db && IsObjectRow(k) ==> !SelectedBy(e.project, e.cls, k))
  }

  lemma ObjectsStep(db: Db, e: Entry)
    requires ObjectsHaveClasses(db) && OnlyRows(db) && Named(e) && Allowed(db, e)
    ensures ObjectsHaveClasses(Effect(db, e))
  {
    forall p, c, id: int64 | ZeroFree(p) && ZeroFree(c) && ObjectKey(p, c, id) in Effect(db, e)
      ensures ClassKey(p, c) in Effect(db, e)
    {
      ObjectStays(db, e, p, c, id);
    }
  }

  lemma ObjectStays(db: Db, e: Entry, p: bytes, c: bytes, id: int64)
    requires ObjectsHaveClasses(db) && OnlyRows(db) && Named(e) && Allowed(db, e)
    requires ZeroFree(p) && ZeroFree(c) && ObjectKey(p, c, id) in Effect(db, e)
    ensures ClassKey(p, c) in Effect(db, e)
  {
    KeysInjective(p, c, id, e.project, e.cls, e.id);
    KeysInjective(e.project, e.cls, e.id, p, c, id);
    ScanSelectsExactlyTheClass(e.project, e.cls, p, c, id);
    DecodeObjectInverts(p, c, id);
    DecodeClassInverts(p, c);
    hide ScopeKey, ClassKey, ObjectKey, SelectedBy, DecodeObjectKey, DecodeClassKey;
    assert IsClassRow(ObjectKey(p, c, id)) || IsObjectRow(ObjectKey(p, c, id)) || ObjectKey(p, c, id) !in db;
  }

  /** The engine's whole bookkeeping, and what one allowed entry does to it. */
  ghost predicate Sound(db: Db, classes: set<bytes>, counters: map<bytes, nat>) {
    OnlyRows(db) && ObjectsHaveClasses(db) && ClassesRight(classes, db) && CountersRight(counters, db)
  }

  lemma SoundStep(db: Db, classes: set<bytes>, counters: map<bytes, nat>, counters': map<bytes, nat>, e: Entry)
    requires Sound(db, classes, counters) && Named(e) && Allowed(db, e)
    requires forall s :: Count(counters', s) >= Count(counters, s)
    requires e.op.Put? ==> e.id <= Count(counters', ScopeKey(e.project, e.cls))
    ensures Sound(Effect(db, e), ClassesAfter(classes, e), counters')
  {
    RowsStep(db, e);
    ObjectsStep(db, e);
    ClassesStep(classes, db, e);
    CountersStep(counters, counters', db, e);
    hide *;
  }
}
