/** The overlay of writes that no generation holds yet, as a mirror of the live log (engine.go). */
module Overlays {
  import opened Bytes
  import opened Wrappers
  import opened Seqs
  import opened KVLists
  import opened Entries
  import opened Generations
  import opened Schema

  datatype Over = Over(tx: nat, delta: Delta)

  type Overlay = map<bytes, Over>

  function Changes(overlay: Overlay): Deltas {
    map k | k in overlay :: overlay[k].delta
  }

  /** What reads see: the overlay over the active generation. */
  function View(base: Db, overlay: Overlay): Db {
    Merge(base, Changes(overlay))
  }

  /** The overlay is the net effect of the log, tagged with numbers up to the log's highest. */
  ghost predicate Mirrors(overlay: Overlay, base: Gen, log: seq<LogEntry>) {
    && Changes(overlay) == Net(Mutations(log, base.applied))
    && forall k :: k in overlay ==> overlay[k].tx <= MaxTx(log, base.applied)
  }

  predicate AllNamed(es: seq<Entry>) {
    forall i :: 0 <= i < |es| ==> Named(es[i])
  }

  ghost predicate Logged(base: Gen, log: seq<LogEntry>, nextTx: nat) {
    && base.applied <= nextTx
    && forall i :: 0 <= i < |log| ==> log[i].tx <= nextTx && AllNamed(log[i].entry.Flatten())
  }

  lemma ViewIsFold(overlay: Overlay, base: Gen, log: seq<LogEntry>)
    requires Mirrors(overlay, base, log)
    ensures View(base.db, overlay) == Fold(base.db, Mutations(log, base.applied))
  {
    MergeIsFold(base.db, Mutations(log, base.applied));
  }

  lemma ViewLookup(base: Db, overlay: Overlay, k: bytes)
    ensures Lookup(View(base, overlay), k) ==
            if k in overlay then (if overlay[k].delta.Data? then Some(overlay[k].delta.data) else None) else Lookup(base, k)
  {
  }

  /** One write to the overlay is one entry's effect on the view. */
  lemma ViewStep(base: Db, overlay: Overlay, e: Entry, tx: nat)
    ensures View(base, overlay[e.Key() := Over(tx, DeltaOf(e))]) == Effect(View(base, overlay), e)
    ensures Changes(overlay[e.Key() := Over(tx, DeltaOf(e))]) == Changes(overlay)[e.Key() := DeltaOf(e)]
  {
    var overlay' := overlay[e.Key() := Over(tx, DeltaOf(e))];
    assert Changes(overlay') == Changes(overlay)[e.Key() := DeltaOf(e)];
    MergeOne(base, Changes(overlay), e);
  }

  /** A logged record is mirrored once all its changes are published. */
  ghost predicate Publishing(overlay: Overlay, base: Gen, log: seq<LogEntry>, tx: nat, done: seq<Entry>) {
    && Changes(overlay) == Net(Mutations(log, base.applied) + done)
    && forall k :: k in overlay ==> overlay[k].tx <= tx
  }

  lemma PublishStarts(overlay: Overlay, base: Gen, log: seq<LogEntry>, tx: nat)
    requires Mirrors(overlay, base, log) && Logged(base, log, tx)
    ensures Publishing(overlay, base, log, tx + 1, [])
  {
    MaxTxBounds(log, base.applied);
    Whole(Mutations(log, base.applied));
  }

  lemma PublishNext(overlay: Overlay, base: Gen, log: seq<LogEntry>, tx: nat, subs: seq<Entry>, i: nat)
    requires i < |subs| && Publishing(overlay, base, log, tx, subs[..i])
    ensures Publishing(overlay[subs[i].Key() := Over(tx, DeltaOf(subs[i]))], base, log, tx, subs[..i + 1])
  {
    ViewStep(base.db, overlay, subs[i], tx);
    NetNext(Mutations(log, base.applied), subs, i);
  }

  /** What publishing a record writes: each mutation in turn, under the record's number. */
  function PutAll(overlay: Overlay, tx: nat, es: seq<Entry>): Overlay {
    if es == [] then overlay
    else PutAll(overlay, tx, es[..|es| - 1])[es[|es| - 1].Key() := Over(tx, DeltaOf(es[|es| - 1]))]
  }

  /** All keys a record changes carry its number and its last change of them; no other key is touched. */
  lemma {:induction false} PutAllIs(overlay: Overlay, tx: nat, es: seq<Entry>)
    ensures PutAll(overlay, tx, es) ==
            map k | k in overlay.Keys + Net(es).Keys :: if k in Net(es) then Over(tx, Net(es)[k]) else overlay[k]
  {
    if es != [] {
      PutAllIs(overlay, tx, es[..|es| - 1]);
    }
  }

  lemma PutAllNext(overlay: Overlay, tx: nat, es: seq<Entry>, i: nat)
    requires i < |es|
    ensures PutAll(overlay, tx, es[..i + 1]) == PutAll(overlay, tx, es[..i])[es[i].Key() := Over(tx, DeltaOf(es[i]))]
  {
    assert es[..i + 1][..i] == es[..i] && es[..i + 1][i] == es[i];
    hide DeltaOf, Entry.Key;
  }

  lemma PutAllNone(overlay: Overlay, tx: nat, es: seq<Entry>)
    ensures PutAll(overlay, tx, es[..0]) == overlay && es[..|es|] == es
  {
  }

  /** A list of changes published one after the other, each under its own number. */
  function Republished(list: seq<LogEntry>): Overlay {
    if list == [] then map[]
    else
      var last := list[|list| - 1];
      Republished(list[..|list| - 1])[last.entry.Key() := Over(last.tx, DeltaOf(last.entry))]
  }

  lemma RepublishedNext(list: seq<LogEntry>, i: nat)
    requires i < |list|
    ensures Republished(list[..i + 1]) ==
            Republished(list[..i])[list[i].entry.Key() := Over(list[i].tx, DeltaOf(list[i].entry))]
  {
    assert list[..i + 1][..i] == list[..i] && list[..i + 1][i] == list[i];
    hide DeltaOf, Entry.Key;
  }

  lemma LogSnoc(log: seq<LogEntry>, r: LogEntry, applied: nat)
    requires r.tx > applied
    ensures Mutations(log + [r], applied) == Mutations(log, applied) + r.entry.Flatten()
    ensures MaxTx(log + [r], applied) >= r.tx
  {
    assert (log + [r])[..|log|] == log && (log + [r])[|log|] == r;
    hide Entry.Flatten;
  }

  lemma PublishEnds(overlay: Overlay, base: Gen, log: seq<LogEntry>, nextTx: nat, e: Entry)
    requires Publishing(overlay, base, log, nextTx + 1, e.Flatten()) && Logged(base, log, nextTx) && AllNamed(e.Flatten())
    ensures var log' := log + [LogEntry(nextTx + 1, e)];
            Mirrors(overlay, base, log') && Logged(base, log', nextTx + 1)
  {
    hide Net, Mutations, MaxTx, Changes, AllNamed, Entry.Flatten;
    LogSnoc(log, LogEntry(nextTx + 1, e), base.applied);
  }

  /** After a checkpoint everything is in the generation and the overlay is empty. */
  lemma FoldedAway(overlay: Overlay, base: Gen, log: seq<LogEntry>, nextTx: nat)
    requires Mirrors(overlay, base, log) && Logged(base, log, nextTx)
    ensures var next := Compact(base, log);
            && next.applied <= nextTx && Mirrors(map[], next, []) && Logged(next, [], nextTx)
            && View(next.db, map[]) == View(base.db, overlay)
            && forall k :: k in overlay ==> overlay[k].tx <= next.applied
  {
    var next := Compact(base, log);
    MaxTxBounds(log, base.applied);
    assert Changes(map[]) == map[] == Net([]);
    MergeIsFold(next.db, []);
  }
}
