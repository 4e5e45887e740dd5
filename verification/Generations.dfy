/** Data generations as values: what folding a log segment into one gives, and gives again. */
module Generations {
  import opened Seqs
  import opened Entries

  /** A published data file: its contents and the highest record folded into it. */
  datatype Gen = Gen(db: Db, applied: nat)

  /** What BuildGeneration computes from a base and a retired log. */
  function Compact(g: Gen, log: seq<LogEntry>): Gen {
    Gen(Merge(g.db, Net(Mutations(log, g.applied))), MaxTx(log, g.applied))
  }

  /** The generation that holds exactly a history. */
  function GenOf(hist: seq<LogEntry>): Gen {
    Gen(Fold(map[], Mutations(hist, 0)), MaxTx(hist, 0))
  }

  /** Record numbers start at 1 and increase strictly along the history. */
  ghost predicate Numbered(hist: seq<LogEntry>) {
    TxAscending(hist) && forall i :: 0 <= i < |hist| ==> hist[i].tx > 0
  }

  lemma {:induction false} MaxTxAppend(a: seq<LogEntry>, b: seq<LogEntry>, floor: nat)
    ensures MaxTx(a + b, floor) == MaxTx(b, MaxTx(a, floor))
  {
    AppendInit(a, b);
    if b != [] {
      MaxTxAppend(a, b[..|b| - 1], floor);
    }
  }

  lemma {:induction false} MaxTxBounds(log: seq<LogEntry>, floor: nat)
    ensures forall i :: 0 <= i < |log| ==> log[i].tx <= MaxTx(log, floor)
    ensures MaxTx(log, floor) == floor || exists i :: 0 <= i < |log| && log[i].tx == MaxTx(log, floor)
  {
    if log != [] {
      var init := log[..|log| - 1];
      MaxTxBounds(init, floor);
      if MaxTx(init, floor) != floor && MaxTx(log, floor) == MaxTx(init, floor) {
        var i :| 0 <= i < |init| && init[i].tx == MaxTx(init, floor);
        assert log[i].tx == MaxTx(log, floor);
      } else if MaxTx(log, floor) != floor {
        assert log[|log| - 1].tx == MaxTx(log, floor);
      }
    }
  }

  /** A floor no higher than some record of the log makes no difference. */
  lemma MaxTxFloor(log: seq<LogEntry>, floor: nat)
    ensures MaxTx(log, floor) == if MaxTx(log, 0) > floor then MaxTx(log, 0) else floor
  {
    MaxTxBounds(log, floor);
    MaxTxBounds(log, 0);
  }

  lemma NumberedSplits(a: seq<LogEntry>, b: seq<LogEntry>)
    requires Numbered(a + b)
    ensures Numbered(a) && Numbered(b)
    ensures forall i, j :: 0 <= i < |a| && 0 <= j < |b| ==> a[i].tx < b[j].tx
  {
    var h := a + b;
    assert forall i :: 0 <= i < |a| ==> a[i] == h[i];
    assert forall i :: 0 <= i < |b| ==> b[i] == h[|a| + i];
  }

  lemma NumberedParts(a: seq<LogEntry>, b: seq<LogEntry>)
    requires Numbered(a + b)
    ensures Numbered(a) && Numbered(b)
    ensures forall i :: 0 <= i < |b| ==> b[i].tx > MaxTx(a, 0)
    ensures forall i :: 0 <= i < |a| ==> a[i].tx <= MaxTx(a, 0)
  {
    NumberedSplits(a, b);
    MaxTxBounds(a, 0);
    hide MaxTx, TxAscending;
  }

  /** Folding the records that follow a history. */
  lemma CompactFollows(a: seq<LogEntry>, b: seq<LogEntry>)
    requires Numbered(a + b)
    ensures Compact(GenOf(a), b) == GenOf(a + b)
  {
    hide Fold, Mutations, Net, Merge, MaxTx, Numbered;
    NumberedParts(a, b);
    MutationsAbove(b, MaxTx(a, 0));
    MutationsAppend(a, b, 0);
    FoldAppend(map[], Mutations(a, 0), Mutations(b, 0));
    MergeIsFold(Fold(map[], Mutations(a, 0)), Mutations(b, 0));
    MaxTxAppend(a, b, 0);
  }

  /** Folding records that are already in changes nothing. */
  lemma CompactAgain(a: seq<LogEntry>, b: seq<LogEntry>)
    requires Numbered(a + b)
    ensures Compact(GenOf(a + b), b) == GenOf(a + b)
  {
    var g := GenOf(a + b);
    NumberedParts(a + b, []) by { Whole(a + b); }
    assert forall i :: 0 <= i < |b| ==> b[i] == (a + b)[|a| + i];
    MutationsBelow(b, g.applied);
    MergeIsFold(g.db, []);
    MaxTxAppend(a, b, 0);
    MaxTxFloor(b, g.applied);
    MaxTxFloor(b, MaxTx(a, 0));
  }

  /** Reading the live log on top of a generation, as recovery does for its overlay. */
  function Overlaid(g: Gen, live: seq<LogEntry>): Db {
    Fold(g.db, Mutations(live, g.applied))
  }

  lemma OverlaidFollows(a: seq<LogEntry>, b: seq<LogEntry>)
    requires Numbered(a + b)
    ensures Overlaid(GenOf(a), b) == GenOf(a + b).db
  {
    hide Fold, Mutations, MaxTx, Numbered;
    NumberedParts(a, b);
    MutationsAbove(b, MaxTx(a, 0));
    MutationsAppend(a, b, 0);
    FoldAppend(map[], Mutations(a, 0), Mutations(b, 0));
  }
}
