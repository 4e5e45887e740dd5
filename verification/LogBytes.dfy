/** The bytes behind the disk protocol's live log: what a crash in the middle of a write leaves to read. */
module LogBytes {
  import opened Bytes
  import opened Seqs
  import opened Entries
  import Wal

  /** The payload encoding is a library's; all that is used of it is that it is a function. */
  type Marshal = Entry -> Wal.Payload

  predicate InWidth(log: seq<LogEntry>) {
    forall i :: 0 <= i < |log| ==> log[i].tx < 0x1_0000_0000_0000_0000
  }

  function Records(marshal: Marshal, log: seq<LogEntry>): (rs: seq<Wal.Record>)
    requires InWidth(log)
    ensures |rs| == |log|
  {
    seq(|log|, i requires 0 <= i < |log| => Wal.Record(log[i].tx, marshal(log[i].entry)))
  }

  function FileOf(crc: Wal.Checksum, marshal: Marshal, log: seq<LogEntry>): bytes
    requires InWidth(log)
  {
    Wal.Encode(crc, Records(marshal, log))
  }

  lemma RecordsTake(marshal: Marshal, log: seq<LogEntry>, k: nat)
    requires InWidth(log) && k <= |log|
    ensures InWidth(log[..k]) && Records(marshal, log[..k]) == Records(marshal, log)[..k]
  {
  }

  lemma EncodeTake(crc: Wal.Checksum, rs: seq<Wal.Record>, k: nat)
    requires k <= |rs|
    ensures |Wal.Encode(crc, rs[..k])| <= |Wal.Encode(crc, rs)|
    ensures Wal.Encode(crc, rs)[..|Wal.Encode(crc, rs[..k])|] == Wal.Encode(crc, rs[..k])
  {
    Parts(rs, k, k);
    Wal.EncodeAppend(crc, rs[..k], rs[k..]);
    hide Wal.Encode;
  }

  /**
   * Whatever byte at or behind the synced records a crash cuts the file at, recovery reads a prefix
   * of the log that keeps those records, notices whether part of another is left, and truncates the
   * file to exactly that prefix. This is the protocol's Crash step followed by its Replay step.
   */
  lemma CutIsCrash(crc: Wal.Checksum, marshal: Marshal, log: seq<LogEntry>, synced: nat, cut: nat)
    returns (kept: nat, torn: bool)
    requires InWidth(log) && synced <= |log| && cut <= |FileOf(crc, marshal, log)|
    requires InWidth(log[..synced]) && |FileOf(crc, marshal, log[..synced])| <= cut
    ensures synced <= kept <= |log| && InWidth(log[..kept])
    ensures var read := Wal.Replay(crc, FileOf(crc, marshal, log)[..cut]);
            && read.records == Records(marshal, log[..kept])
            && (torn <==> !read.end.CleanEnd?) && (torn <==> read.offset < cut)
            && FileOf(crc, marshal, log)[..cut][..read.offset] == FileOf(crc, marshal, log[..kept])
  {
    var rs := Records(marshal, log);
    RecordsTake(marshal, log, synced);
    Wal.TornTail(crc, rs, cut);
    Wal.SyncedRecordsSurvive(crc, rs, synced, cut);
    var read := Wal.Replay(crc, Wal.Encode(crc, rs)[..cut]);
    kept, torn := |read.records|, !read.end.CleanEnd?;
    RecordsTake(marshal, log, kept);
    EncodeTake(crc, rs, kept);
    hide Wal.Encode, Wal.Replay, Records;
    assert Wal.Encode(crc, rs)[..cut][..read.offset] == Wal.Encode(crc, rs)[..read.offset];
  }
}
