/**
 * Log entries and what they mean: one at a time (apply/apply.go), and as the net per-key changes
 * that a checkpoint folds in (checkpoint.parseWALDeltas).
 */
module Entries {
  import opened Bytes
  import opened Wrappers
  import opened Seqs
  import opened Keys
  import opened Sorting

  datatype Op = Put | Delete | CreateClass | DropClass | Batch | Other(code: byte)

  datatype Entry = Entry(op: Op, project: bytes, cls: bytes, id: int64, data: bytes, sub: seq<Entry>)
  {
    function Key(): bytes {
      if op.CreateClass? || op.DropClass? then ClassKey(project, cls) else ObjectKey(project, cls, id)
    }

    /** A batch stands for its parts; expansion is one level deep. */
    function Flatten(): seq<Entry> {
      if op.Batch? then sub else [this]
    }

    predicate Known() {
      op.Put? || op.CreateClass? || op.Delete? || op.DropClass?
    }

    predicate Removes() {
      op.Delete? || op.DropClass?
    }
  }

  /** A log record: what the framing carries, with the payload decoded. */
  datatype LogEntry = LogEntry(tx: nat, entry: Entry)

  type Db = map<bytes, bytes>

  // ---- One entry at a time ----

  function Effect(db: Db, e: Entry): Db {
    if e.Removes() then db - {e.Key()} else db[e.Key() := e.data]
  }

  function Fold(db: Db, es: seq<Entry>): Db {
    if es == [] then db else Effect(Fold(db, es[..|es| - 1]), es[|es| - 1])
  }

  /** apply.Entry over a list: an operation it does not know stops it with an error. */
  function ApplyAll(db: Db, es: seq<Entry>): Result<Db> {
    if es == [] then Ok(db)
    else
      match ApplyAll(db, es[..|es| - 1])
      case Err => Err
      case Ok(d) => if es[|es| - 1].Known() then Ok(Effect(d, es[|es| - 1])) else Err
  }

  /** The mutations of all records above `applied`, in log order. */
  function Mutations(log: seq<LogEntry>, applied: nat): seq<Entry> {
    if log == [] then []
    else
      var last := log[|log| - 1];
      Mutations(log[..|log| - 1], applied) + if last.tx > applied then last.entry.Flatten() else []
  }

  // ---- Net changes per key ----

  datatype Delta = Data(data: bytes) | Deleted

  type Deltas = map<bytes, Delta>

  function DeltaOf(e: Entry): Delta {
    if e.Removes() then Deleted else Data(e.data)
  }

  function Net(es: seq<Entry>): Deltas {
    if es == [] then map[] else Net(es[..|es| - 1])[es[|es| - 1].Key() := DeltaOf(es[|es| - 1])]
  }

  /** Deltas win over the base; a deletion drops the key. */
  function Merge(base: Db, deltas: Deltas): Db {
    map k | k in base.Keys + deltas.Keys && (k in deltas ==> deltas[k].Data?) ::
      if k in deltas then deltas[k].data else base[k]
  }

  function MaxTx(log: seq<LogEntry>, floor: nat): (m: nat)
    ensures m >= floor
  {
    if log == [] then floor
    else
      var m := MaxTx(log[..|log| - 1], floor);
      if log[|log| - 1].tx > m then log[|log| - 1].tx else m
  }

  lemma NetNext(before: seq<Entry>, subs: seq<Entry>, j: nat)
    requires j < |subs|
    ensures Net(before + subs[..j + 1]) == Net(before + subs[..j])[subs[j].Key() := DeltaOf(subs[j])]
  {
    hide Net;
    InitOf(before, subs, j);
    NetLast(before + subs[..j + 1]);
  }

  lemma InitOf<T>(before: seq<T>, subs: seq<T>, j: nat)
    requires j < |subs|
    ensures var es := before + subs[..j + 1]; es[..|es| - 1] == before + subs[..j] && es[|es| - 1] == subs[j]
  {
  }

  lemma NetLast(es: seq<Entry>)
    requires es != []
    ensures Net(es) == Net(es[..|es| - 1])[es[|es| - 1].Key() := DeltaOf(es[|es| - 1])]
  {
  }

  lemma LogEnds(log: seq<LogEntry>, applied: nat)
    ensures Net(Mutations(log[..0], applied)) == map[] && MaxTx(log[..0], applied) == applied
    ensures log[..|log|] == log
  {
  }

  lemma LogNext(log: seq<LogEntry>, i: nat, applied: nat)
    requires i < |log|
    ensures Mutations(log[..i + 1], applied) ==
            Mutations(log[..i], applied) + if log[i].tx > applied then log[i].entry.Flatten() else []
    ensures MaxTx(log[..i + 1], applied) ==
            if log[i].tx > MaxTx(log[..i], applied) then log[i].tx else MaxTx(log[..i], applied)
  {
    assert log[..i + 1][..i] == log[..i];
  }

  /** The inner loop of ParseDeltas: one record's mutations, later ones overwriting earlier ones. */
  method Overwrite(deltas: Deltas, subs: seq<Entry>, ghost before: seq<Entry>) returns (r: Deltas)
    requires deltas == Net(before)
    ensures r == Net(before + subs)
  {
    hide Net;
    r := deltas;
    TakeAll(before, subs);
    var j := 0;
    while j < |subs|
      invariant 0 <= j <= |subs|
      invariant r == Net(before + subs[..j])
    {
      var sub := subs[j];
      NetNext(before, subs, j);
      var delta := if sub.op.Delete? || sub.op.DropClass? then Deleted else Data(sub.data);
      r := r[sub.Key() := delta];
      j := j + 1;
    }
  }

  method ParseDeltas(log: seq<LogEntry>, baseApplied: nat)
    returns (deltas: Deltas, sorted: seq<bytes>, lastApplied: nat)
    ensures deltas == Net(Mutations(log, baseApplied))
    ensures Ascending(sorted) && forall k :: k in sorted <==> k in deltas
    ensures lastApplied == MaxTx(log, baseApplied)
  {
    hide *;
    deltas, lastApplied := map[], baseApplied;
    LogEnds(log, baseApplied);
    var i := 0;
    while i < |log|
      invariant 0 <= i <= |log|
      invariant deltas == Net(Mutations(log[..i], baseApplied))
      invariant lastApplied == MaxTx(log[..i], baseApplied)
    {
      var r := log[i];
      LogNext(log, i, baseApplied);
      lastApplied := if r.tx > lastApplied then r.tx else lastApplied;
      var subs := if r.tx > baseApplied then r.entry.Flatten() else [];
      deltas := Overwrite(deltas, subs, Mutations(log[..i], baseApplied));
      i := i + 1;
    }
    sorted := SortKeys(deltas.Keys);
  }

  // ---- The two meanings agree ----

  lemma MergeOne(base: Db, deltas: Deltas, e: Entry)
    ensures Merge(base, deltas[e.Key() := DeltaOf(e)]) == Effect(Merge(base, deltas), e)
  {
  }

  /** Compaction preserves meaning: net changes on top of any base equal the changes one by one. */
  lemma {:induction false} MergeIsFold(base: Db, es: seq<Entry>)
    ensures Merge(base, Net(es)) == Fold(base, es)
  {
    if es != [] {
      MergeIsFold(base, es[..|es| - 1]);
      MergeOne(base, Net(es[..|es| - 1]), es[|es| - 1]);
    }
  }

  /**
   * The exact agreement with apply.Entry: it gives the compaction's result if and only if every
   * mutation is of a known kind, and otherwise it stops with an error where compaction goes on.
   */
  lemma {:induction false} ApplyAgreesIffKnown(base: Db, es: seq<Entry>)
    ensures (forall i :: 0 <= i < |es| ==> es[i].Known()) ==> ApplyAll(base, es) == Ok(Merge(base, Net(es)))
    ensures !(forall i :: 0 <= i < |es| ==> es[i].Known()) ==> ApplyAll(base, es) == Err
  {
    MergeIsFold(base, es);
    if es != [] {
      var init := es[..|es| - 1];
      ApplyAgreesIffKnown(base, init);
      MergeIsFold(base, init);
      assert (forall i :: 0 <= i < |es| ==> es[i].Known()) <==>
             (forall i :: 0 <= i < |init| ==> init[i].Known()) && es[|es| - 1].Known();
    }
  }

  /** A batch inside a batch is such a mutation: compaction stores a row for it, apply refuses. */
  lemma NestedBatchDisagrees()
    ensures exists e: Entry :: e.op.Batch? && ApplyAll(map[], e.Flatten()) == Err
                               && Merge(map[], Net(e.Flatten())) != map[]
  {
    var inner := Entry(Batch, [], [], 0, [], []);
    var e := Entry(Batch, [], [], 0, [], [inner]);
    var es := e.Flatten();
    assert es == [inner] && es[..0] == [];
    assert inner.Key() in Net(es);
    assert inner.Key() in Merge(map[], Net(es));
  }

  // ---- Prefixes and suffixes of a log ----

  lemma {:induction false} FoldAppend(db: Db, a: seq<Entry>, b: seq<Entry>)
    ensures Fold(db, a + b) == Fold(Fold(db, a), b)
  {
    AppendInit(a, b);
    hide Effect;
    if b != [] {
      FoldAppend(db, a, b[..|b| - 1]);
    }
  }

  lemma {:induction false} MutationsAppend(a: seq<LogEntry>, b: seq<LogEntry>, applied: nat)
    ensures Mutations(a + b, applied) == Mutations(a, applied) + Mutations(b, applied)
  {
    AppendInit(a, b);
    if b != [] {
      MutationsAppend(a, b[..|b| - 1], applied);
    }
  }

  ghost predicate TxAscending(log: seq<LogEntry>) {
    forall i, j :: 0 <= i < j < |log| ==> log[i].tx < log[j].tx
  }

  lemma {:induction false} MutationsAbove(log: seq<LogEntry>, applied: nat)
    requires forall i :: 0 <= i < |log| ==> log[i].tx > applied
    ensures Mutations(log, applied) == Mutations(log, 0)
  {
    if log != [] {
      MutationsAbove(log[..|log| - 1], applied);
    }
  }

  lemma {:induction false} MutationsBelow(log: seq<LogEntry>, applied: nat)
    requires forall i :: 0 <= i < |log| ==> log[i].tx <= applied
    ensures Mutations(log, applied) == []
  {
    if log != [] {
      MutationsBelow(log[..|log| - 1], applied);
    }
  }
}
