/**
 * The bytes on disk, spelled out: log records (wal/writer.go), tree and overflow pages
 * (btree/encode.go) and row keys (wal/record.go). Files of one build open in another only while
 * these hold.
 */
module Layouts {
  import opened Bytes
  import opened Seqs
  import opened Keys
  import Wal
  import Nodes
  import PageStore

  // ---- Log records ----

  /** A record starts with "LAWZ", version 1 and three zero bytes; number, length and sum follow. */
  lemma RecordOnDisk(crc: Wal.Checksum, r: Wal.Record)
    ensures Wal.Frame(crc, r) ==
            [0x4C, 0x41, 0x57, 0x5A, 1, 0, 0, 0] + (LE(r.tx, 8) + LE(|r.payload|, 4))
            + LE(crc(LE(r.tx, 8) + LE(|r.payload|, 4) + r.payload), 4) + r.payload
  {
    LEOfFour(0x4C, 0x41, 0x57, 0x5A);
    hide LE;
    assert [0x4C, 0x41, 0x57, 0x5A] + [1, 0, 0, 0] == [0x4C, 0x41, 0x57, 0x5A, 1, 0, 0, 0];
  }

  /** Where the parts of a record are: 24 bytes of header, then the payload. */
  lemma RecordParts(crc: Wal.Checksum, r: Wal.Record)
    ensures var f := Wal.Frame(crc, r);
            && |f| == 24 + |r.payload| && f[..8] == [0x4C, 0x41, 0x57, 0x5A, 1, 0, 0, 0] && f[8..16] == LE(r.tx, 8)
            && f[16..20] == LE(|r.payload|, 4) && f[20..24] == LE(crc(f[8..20] + f[24..]), 4) && f[24..] == r.payload
  {
    RecordOnDisk(crc, r);
    hide LE, Wal.Frame;
    var start: bytes := [0x4C, 0x41, 0x57, 0x5A, 1, 0, 0, 0];
    SixFields(start, LE(r.tx, 8), LE(|r.payload|, 4),
              LE(crc(LE(r.tx, 8) + LE(|r.payload|, 4) + r.payload), 4), r.payload);
  }

  lemma SixFields(start: bytes, tx: bytes, len: bytes, sum: bytes, rest: bytes)
    requires |start| == 8 && |tx| == 8 && |len| == 4 && |sum| == 4
    ensures var f := start + (tx + len) + sum + rest;
            && f[..8] == start && f[8..16] == tx && f[16..20] == len && f[8..20] == tx + len && f[20..24] == sum
            && f[24..] == rest
  {
  }

  // ---- Tree pages ----

  /** A leaf page: the number of entries, then the entries one after the other. */
  lemma LeafOnDisk(a: Nodes.LeafEntry, b: Nodes.LeafEntry)
    ensures Nodes.NodeBytes(Nodes.Leaf([a, b])) == [2, 0] + (Nodes.EncodeEntry(a) + Nodes.EncodeEntry(b))
  {
    hide *;
    hide LE, Nodes.EncodeEntry, Nodes.EncodeEntries, Nodes.NodeBytes;
    LEOfTwo(2, 0);
    LeafParts([a, b]);
    TwoEntries(a, b);
  }

  lemma LeafParts(es: seq<Nodes.LeafEntry>)
    ensures Nodes.NodeBytes(Nodes.Leaf(es)) == LE(|es|, 2) + Nodes.EncodeEntries(es)
  {
  }

  lemma TwoEntries(a: Nodes.LeafEntry, b: Nodes.LeafEntry)
    ensures Nodes.EncodeEntries([a, b]) == Nodes.EncodeEntry(a) + Nodes.EncodeEntry(b)
  {
    hide Nodes.EncodeEntry;
    assert [a, b][1..] == [b] && [b][1..] == [];
    assert Nodes.EncodeEntries([b]) == Nodes.EncodeEntry(b) + Nodes.EncodeEntries([]);
    Whole(Nodes.EncodeEntry(b));
  }

  /** An entry: the key's length and the key, then 0, the value's length and the value, or 1, the
      first page of a spilled value and its size. */
  lemma EntriesOnDisk(key: bytes, value: bytes, head: Nodes.PageId, size: nat)
    ensures Nodes.EncodeEntry(Nodes.Inline(key, value)) == LE(|key|, 2) + key + [0] + LE(|value|, 4) + value
    ensures Nodes.EncodeEntry(Nodes.Spilled(key, head, size)) == LE(|key|, 2) + key + [1] + LE(head, 8) + LE(size, 8)
  {
    hide LE;
  }

  /** A branch page: the number of separators, the first child, then each separator with the child behind it. */
  lemma BranchOnDisk(first: Nodes.PageId, key: bytes, second: Nodes.PageId)
    ensures Nodes.NodeBytes(Nodes.Internal([key], [first, second])) ==
            [1, 0] + LE(first, 8) + Nodes.EncodeLink(key, second)
    ensures Nodes.EncodeLink(key, second) == LE(|key|, 2) + key + LE(second, 8)
  {
    hide LE, Nodes.EncodeLink, Nodes.EncodeLinks, Nodes.NodeBytes;
    LEOfTwo(1, 0);
    BranchParts([key], [first, second]);
    assert [first, second][1..] == [second];
    OneLink(key, second);
  }

  lemma BranchParts(keys: seq<bytes>, children: seq<Nodes.PageId>)
    requires |children| == |keys| + 1
    ensures Nodes.NodeBytes(Nodes.Internal(keys, children)) ==
            LE(|keys|, 2) + LE(children[0], 8) + Nodes.EncodeLinks(keys, children[1..])
  {
  }

  lemma OneLink(key: bytes, child: Nodes.PageId)
    ensures Nodes.EncodeLinks([key], [child]) == Nodes.EncodeLink(key, child)
    ensures Nodes.EncodeLink(key, child) == LE(|key|, 2) + key + LE(child, 8)
  {
    LinkParts(key, child);
    hide LE, Nodes.EncodeLink;
    assert [key][1..] == [] && [child][1..] == [];
    Whole(Nodes.EncodeLink(key, child));
  }

  lemma LinkParts(key: bytes, child: Nodes.PageId)
    ensures Nodes.EncodeLink(key, child) == LE(|key|, 2) + key + LE(child, 8)
  {
    hide LE;
  }

  /** Reading an entry, the flag decides: 1 means a spilled value, and everything else an inline one. */
  lemma FlagDecides(key: bytes, flag: byte, rest: bytes)
    requires |key| < 0x1_0000
    ensures var r := Nodes.ParseEntry(LE(|key|, 2) + key + [flag] + rest);
            r.Some? ==> r.value.0.key == key && (r.value.0.Spilled? <==> flag == 1)
  {
    hide *;
    hide Nodes.ParseEntry, LE, FromLE, Pow256;
    PowersOf256();
    LERoundTrip(|key|, 2);
    FlagPlace(LE(|key|, 2), key, flag, rest);
    EntryFlag(LE(|key|, 2) + key + [flag] + rest);
  }

  lemma FlagPlace(len: bytes, key: bytes, flag: byte, rest: bytes)
    requires |len| == 2
    ensures var b := len + key + [flag] + rest;
            |b| >= 3 + |key| && b[..2] == len && b[2..2 + |key|] == key && b[2 + |key|] == flag
  {
  }

  lemma EntryFlag(b: bytes)
    requires |b| >= 2 && |b| >= 3 + FromLE(b[..2])
    ensures var r, n := Nodes.ParseEntry(b), FromLE(b[..2]);
            r.Some? ==> r.value.0.key == b[2..2 + n] && (r.value.0.Spilled? <==> b[2 + n] == 1)
  {
    hide FromLE;
  }

  /** A node is one kind of page or the other, and no other page decodes as a node. */
  lemma PageKinds(n: Nodes.Node, p: Nodes.Page)
    requires Nodes.Shaped(n)
    ensures Nodes.PageOf(n).ptype == if n.Leaf? then Nodes.LeafPage else Nodes.InternalPage
    ensures Nodes.ParseNode(p).Ok? ==>
              if Nodes.ParseNode(p).value.Leaf? then p.ptype.LeafPage? else p.ptype.InternalPage?
  {
    hide Nodes.ParseEntries, Nodes.ParseLinks, FromLE;
  }

  /** An overflow page: the next page, the number of bytes, and the bytes; all ones end the chain. */
  lemma OverflowOnDisk(next: Nodes.PageId, data: bytes)
    ensures PageStore.ChainPage(next, data) == Nodes.Page(Nodes.OverflowPage, LE(next, 8) + LE(|data|, 4) + data)
    ensures LE(Nodes.INVALID, 8) == [255, 255, 255, 255, 255, 255, 255, 255]
  {
    LEOfEight(0xFFFF_FFFF, 0xFFFF_FFFF);
    LEOfFour(255, 255, 255, 255);
    hide LE;
  }

  /** Pages of 4096 bytes with 32 of header; overflow pages spend 12 more; values up to 512 bytes stay in
      their leaf, payloads up to 64 MiB in one log record. */
  lemma Sizes()
    ensures Nodes.BODY_SIZE == 4096 - 32 && PageStore.CHUNK == 4096 - 32 - 12 && Nodes.MAX_INLINE == 512
    ensures Wal.MAX_RECORD == 64 * 1024 * 1024 && Wal.HEADER == 24
  {
  }

  // ---- Row keys ----

  /** Class rows start with 1 and object rows with 2; a named project comes before the class, ended by
      a zero, and the default project is left out; a zero ends the class before an id. */
  lemma KeysOnDisk(project: bytes, cls: bytes, id: int64)
    requires project != []
    ensures ClassKey([], cls) == [1] + cls && ClassKey(project, cls) == [1] + (project + [0]) + cls
    ensures ObjectKey([], cls, id) == [2] + cls + [0] + EncodeId(id)
    ensures ObjectKey(project, cls, id) == [2] + (project + [0]) + cls + [0] + EncodeId(id)
  {
    hide EncodeId;
  }

  /** Ids are eight bytes, the most significant first, two's complement below zero. */
  lemma IdsOnDisk()
    ensures EncodeId(1) == [0, 0, 0, 0, 0, 0, 0, 1] && EncodeId(256) == [0, 0, 0, 0, 0, 0, 1, 0]
    ensures EncodeId(-1) == [255, 255, 255, 255, 255, 255, 255, 255]
  {
    BEOfByte(1, 7);
    BEOfByte(256, 7);
    assert BE(1, 7) == [0, 0, 0, 0, 0, 0, 1] by { Zeros(1, 6); }
    Zeros(0, 7);
    Ones(8);
    PowersOf256();
  }

  lemma {:induction false} Zeros(n: nat, w: nat)
    ensures BE(0, w) == seq(w, _ => 0)
    ensures n < 256 ==> BE(n, w + 1) == seq(w, _ => 0) + [n]
  {
    if w > 0 {
      Zeros(n, w - 1);
    }
  }

  lemma BEOfByte(n: nat, w: nat)
    ensures BE(n, w + 1) == BE(n / 256, w) + [n % 256]
  {
  }

  lemma {:induction false} Ones(w: nat)
    ensures BE(Pow256(w) - 1, w) == seq(w, _ => 255)
  {
    if w > 0 {
      Ones(w - 1);
      LowByte(255, Pow256(w - 1) - 1);
      assert Pow256(w) - 1 == 255 + 256 * (Pow256(w - 1) - 1);
    }
  }
}
