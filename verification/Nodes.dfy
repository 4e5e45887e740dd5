/** The bytes of B+Tree pages: leaves, internal nodes, and what decoding makes of them (btree/encode.go). */
module Nodes {
  import opened Bytes
  import opened Wrappers
  import opened Seqs

  const BODY_SIZE := 4064
  const MAX_INLINE := 512

  type PageId = nat

  /** The all-ones id that stands for "no page". */
  const INVALID: PageId := 0xFFFF_FFFF_FFFF_FFFF

  datatype LeafEntry = Inline(key: bytes, value: bytes) | Spilled(key: bytes, head: PageId, size: nat)
  datatype Node = Leaf(entries: seq<LeafEntry>) | Internal(keys: seq<bytes>, children: seq<PageId>)

  datatype PageType = LeafPage | InternalPage | OverflowPage | OtherPage

  /** A page as its readers see it: the type and the meaningful part of the body. */
  datatype Page = Page(ptype: PageType, payload: bytes)

  // ---- Encoding ----

  function EntrySize(e: LeafEntry): nat {
    2 + |e.key| + 1 + if e.Spilled? then 16 else 4 + |e.value|
  }

  function EncodeEntry(e: LeafEntry): (b: bytes)
    ensures |b| == EntrySize(e)
  {
    match e
    case Inline(key, value) => LE(|key|, 2) + key + [0] + LE(|value|, 4) + value
    case Spilled(key, head, size) => LE(|key|, 2) + key + [1] + LE(head, 8) + LE(size, 8)
  }

  function EncodeEntries(es: seq<LeafEntry>): bytes {
    if es == [] then [] else EncodeEntry(es[0]) + EncodeEntries(es[1..])
  }

  function EncodeLink(key: bytes, child: PageId): (b: bytes)
    ensures |b| == 10 + |key|
  {
    LE(|key|, 2) + key + LE(child, 8)
  }

  function EncodeLinks(keys: seq<bytes>, children: seq<PageId>): bytes
    requires |keys| == |children|
  {
    if keys == [] then [] else EncodeLink(keys[0], children[0]) + EncodeLinks(keys[1..], children[1..])
  }

  /** What every node built by the tree satisfies, whatever its size. */
  predicate Shaped(n: Node) {
    n.Internal? ==> |n.children| == |n.keys| + 1
  }

  function NodeBytes(n: Node): bytes
    requires Shaped(n)
  {
    match n
    case Leaf(es) => LE(|es|, 2) + EncodeEntries(es)
    case Internal(keys, children) => LE(|keys|, 2) + LE(children[0], 8) + EncodeLinks(keys, children[1..])
  }

  predicate Fits(n: Node)
    requires Shaped(n)
  {
    |NodeBytes(n)| <= BODY_SIZE
  }

  /** The body is copied into a fixed-size page, so bytes beyond it are silently dropped. */
  function PageOf(n: Node): Page
    requires Shaped(n)
  {
    var body := NodeBytes(n);
    Page(if n.Leaf? then LeafPage else InternalPage, if |body| <= BODY_SIZE then body else body[..BODY_SIZE])
  }

  // ---- Decoding ----

  function ParseEntry(b: bytes): Option<(LeafEntry, nat)> {
    if |b| < 2 then None
    else
      var kl := FromLE(b[..2]);
      if |b| < 2 + kl + 1 then None
      else
        var key, rest := b[2..2 + kl], b[3 + kl..];
        if b[2 + kl] == 1 then
          if |rest| < 16 then None
          else Some((Spilled(key, FromLE(rest[..8]), FromLE(rest[8..16])), 3 + kl + 16))
        else if |rest| < 4 then None
        else
          var vl := FromLE(rest[..4]);
          if |rest| < 4 + vl then None else Some((Inline(key, rest[4..4 + vl]), 3 + kl + 4 + vl))
  }

  function ParseEntries(b: bytes, n: nat): Option<seq<LeafEntry>> {
    if n == 0 then Some([])
    else
      match ParseEntry(b)
      case None => None
      case Some((e, used)) =>
        if used > |b| then None
        else
          match ParseEntries(b[used..], n - 1)
          case None => None
          case Some(es) => Some([e] + es)
  }

  function ParseLink(b: bytes): Option<(bytes, PageId)> {
    if |b| < 2 then None
    else
      var kl := FromLE(b[..2]);
      if |b| < 2 + kl + 8 then None else Some((b[2..2 + kl], FromLE(b[2 + kl..2 + kl + 8])))
  }

  datatype Links = Links(keys: seq<bytes>, children: seq<PageId>)

  function ParseLinks(b: bytes, n: nat): Option<Links> {
    if n == 0 then Some(Links([], []))
    else
      match ParseLink(b)
      case None => None
      case Some((key, child)) =>
        if 10 + |key| > |b| then None
        else
          match ParseLinks(b[10 + |key|..], n - 1)
          case None => None
          case Some(rest) => Some(Links([key] + rest.keys, [child] + rest.children))
  }

  function ParseNode(p: Page): Result<Node> {
    match p.ptype
    case LeafPage =>
      if |p.payload| < 2 then Err
      else
        (match ParseEntries(p.payload[2..], FromLE(p.payload[..2]))
         case None => Err
         case Some(es) => Ok(Leaf(es)))
    case InternalPage =>
      if |p.payload| < 10 then Err
      else
        (match ParseLinks(p.payload[10..], FromLE(p.payload[..2]))
         case None => Err
         case Some(links) => Ok(Internal(links.keys, [FromLE(p.payload[2..10])] + links.children)))
    case _ => Err
  }

  // ---- Round trips ----

  /** The field widths: every number the encoder writes must be representable. */
  predicate EntryEncodable(e: LeafEntry) {
    |e.key| < 0x1_0000 && (if e.Inline? then |e.value| < 0x1_0000_0000 else e.head <= INVALID && e.size <= INVALID)
  }

  predicate Encodable(n: Node) {
    match n
    case Leaf(es) => |es| < 0x1_0000 && forall i :: 0 <= i < |es| ==> EntryEncodable(es[i])
    case Internal(keys, children) =>
      && |keys| < 0x1_0000
      && (forall i :: 0 <= i < |keys| ==> |keys[i]| < 0x1_0000)
      && forall i :: 0 <= i < |children| ==> children[i] <= INVALID
  }

  lemma Widths()
    ensures Pow256(2) == 0x1_0000 && Pow256(4) == 0x1_0000_0000 && Pow256(8) == INVALID + 1
  {
    PowersOf256();
  }

  lemma ParseInlineInverts(key: bytes, value: bytes, tail: bytes)
    requires EntryEncodable(Inline(key, value))
    ensures ParseEntry(EncodeEntry(Inline(key, value)) + tail) == Some((Inline(key, value), EntrySize(Inline(key, value))))
  {
    Widths();
    hide LE, FromLE, Pow256;
    var b := EncodeEntry(Inline(key, value)) + tail;
    var kl := |key|;
    assert b[..2] == LE(kl, 2) && b[2..2 + kl] == key && b[2 + kl] == 0;
    var rest := b[3 + kl..];
    assert rest == LE(|value|, 4) + value + tail;
    Fields(LE(|value|, 4), value, tail);
    LERoundTrip(kl, 2);
    LERoundTrip(|value|, 4);
  }

  lemma ParseSpilledInverts(key: bytes, head: PageId, size: nat, tail: bytes)
    requires EntryEncodable(Spilled(key, head, size))
    ensures ParseEntry(EncodeEntry(Spilled(key, head, size)) + tail)
            == Some((Spilled(key, head, size), EntrySize(Spilled(key, head, size))))
  {
    Widths();
    hide LE, FromLE, Pow256;
    var b := EncodeEntry(Spilled(key, head, size)) + tail;
    var kl := |key|;
    assert b[..2] == LE(kl, 2) && b[2..2 + kl] == key && b[2 + kl] == 1;
    var rest := b[3 + kl..];
    assert rest == LE(head, 8) + LE(size, 8) + tail;
    Fields(LE(head, 8), LE(size, 8), tail);
    LERoundTrip(kl, 2);
    LERoundTrip(head, 8);
    LERoundTrip(size, 8);
  }

  lemma ParseEntryInverts(e: LeafEntry, tail: bytes)
    requires EntryEncodable(e)
    ensures ParseEntry(EncodeEntry(e) + tail) == Some((e, EntrySize(e)))
  {
    match e
    case Inline(key, value) => ParseInlineInverts(key, value, tail);
    case Spilled(key, head, size) => ParseSpilledInverts(key, head, size, tail);
  }

  lemma InlineLength(e: LeafEntry)
    requires e.Inline?
    ensures EncodeEntry(e)[3 + |e.key|..7 + |e.key|] == LE(|e.value|, 4)
  {
    hide LE;
    var before := LE(|e.key|, 2) + e.key + [0];
    Fields(before, LE(|e.value|, 4), e.value);
  }

  /** An entry that lost its last byte does not decode. */
  lemma CutEntryFails(e: LeafEntry, cut: nat)
    requires EntryEncodable(e) && cut < EntrySize(e)
    ensures ParseEntry(EncodeEntry(e)[..cut]) == None
  {
    Widths();
    hide LE, FromLE, Pow256;
    var f, b, kl := EncodeEntry(e), EncodeEntry(e)[..cut], |e.key|;
    EntryStart(e);
    hide EncodeEntry;
    if cut >= 2 {
      StartOf(f, cut, 2);
      LERoundTrip(kl, 2);
      if cut >= 3 + kl {
        assert b[2 + kl] == f[2 + kl];
        if e.Inline? && cut >= 7 + kl {
          MiddleOf(f, cut, 3 + kl);
          InlineLength(e);
          LERoundTrip(|e.value|, 4);
        }
      }
    }
  }

  lemma EntryStart(e: LeafEntry)
    ensures var f := EncodeEntry(e); f[..2] == LE(|e.key|, 2) && f[2 + |e.key|] == if e.Inline? then 0 else 1
  {
    hide LE;
  }

  lemma StartOf(f: bytes, cut: nat, n: nat)
    requires n <= cut <= |f|
    ensures f[..cut][..n] == f[..n]
  {
  }

  lemma MiddleOf(f: bytes, cut: nat, i: nat)
    requires i + 4 <= cut <= |f|
    ensures f[..cut][i..][..4] == f[i..i + 4]
  {
  }

  lemma {:induction false} ParseEntriesInverts(es: seq<LeafEntry>, tail: bytes)
    requires forall i :: 0 <= i < |es| ==> EntryEncodable(es[i])
    ensures ParseEntries(EncodeEntries(es) + tail, |es|) == Some(es)
  {
    hide ParseEntry, EncodeEntry, EntrySize;
    if es != [] {
      var e, rest := es[0], EncodeEntries(es[1..]) + tail;
      var b := EncodeEntry(e) + rest;
      assert EncodeEntries(es) + tail == b;
      assert b[EntrySize(e)..] == rest;
      ParseEntryInverts(e, rest);
      ParseEntriesInverts(es[1..], tail);
      HeadTail(es);
    }
  }

  lemma {:induction false} CutEntriesFail(es: seq<LeafEntry>, cut: nat)
    requires forall i :: 0 <= i < |es| ==> EntryEncodable(es[i])
    requires cut < |EncodeEntries(es)|
    ensures ParseEntries(EncodeEntries(es)[..cut], |es|) == None
  {
    hide ParseEntry, EncodeEntry, EntrySize;
    var e, rest := es[0], EncodeEntries(es[1..]);
    var b := EncodeEntries(es)[..cut];
    if cut < EntrySize(e) {
      assert b == EncodeEntry(e)[..cut];
      CutEntryFails(e, cut);
    } else {
      assert b == EncodeEntry(e) + rest[..cut - EntrySize(e)];
      assert b[EntrySize(e)..] == rest[..cut - EntrySize(e)];
      ParseEntryInverts(e, rest[..cut - EntrySize(e)]);
      CutEntriesFail(es[1..], cut - EntrySize(e));
    }
  }

  lemma ParseLinkInverts(key: bytes, child: PageId, tail: bytes)
    requires |key| < 0x1_0000 && child <= INVALID
    ensures ParseLink(EncodeLink(key, child) + tail) == Some((key, child))
  {
    Widths();
    hide LE, FromLE, Pow256;
    var b := EncodeLink(key, child) + tail;
    var kl := |key|;
    assert b[..2] == LE(kl, 2) && b[2..2 + kl] == key && b[2 + kl..2 + kl + 8] == LE(child, 8);
    LERoundTrip(kl, 2);
    LERoundTrip(child, 8);
  }

  lemma CutLinkFails(key: bytes, child: PageId, cut: nat)
    requires |key| < 0x1_0000 && cut < 10 + |key|
    ensures ParseLink(EncodeLink(key, child)[..cut]) == None
  {
    Widths();
    hide LE, FromLE, Pow256;
    if cut >= 2 {
      assert EncodeLink(key, child)[..cut][..2] == LE(|key|, 2);
      LERoundTrip(|key|, 2);
    }
  }

  lemma {:induction false} ParseLinksInverts(keys: seq<bytes>, children: seq<PageId>, tail: bytes)
    requires |keys| == |children|
    requires forall i :: 0 <= i < |keys| ==> |keys[i]| < 0x1_0000 && children[i] <= INVALID
    ensures ParseLinks(EncodeLinks(keys, children) + tail, |keys|) == Some(Links(keys, children))
  {
    hide ParseLink, EncodeLink;
    if keys != [] {
      var rest := EncodeLinks(keys[1..], children[1..]) + tail;
      var b := EncodeLink(keys[0], children[0]) + rest;
      assert EncodeLinks(keys, children) + tail == b;
      assert b[10 + |keys[0]|..] == rest;
      ParseLinkInverts(keys[0], children[0], rest);
      ParseLinksInverts(keys[1..], children[1..], tail);
      HeadTail(keys);
      HeadTail(children);
    }
  }

  lemma {:induction false} CutLinksFail(keys: seq<bytes>, children: seq<PageId>, cut: nat)
    requires |keys| == |children|
    requires forall i :: 0 <= i < |keys| ==> |keys[i]| < 0x1_0000 && children[i] <= INVALID
    requires cut < |EncodeLinks(keys, children)|
    ensures ParseLinks(EncodeLinks(keys, children)[..cut], |keys|) == None
  {
    hide ParseLink, EncodeLink;
    var n := 10 + |keys[0]|;
    var link, rest := EncodeLink(keys[0], children[0]), EncodeLinks(keys[1..], children[1..]);
    var b := EncodeLinks(keys, children)[..cut];
    if cut < n {
      assert b == link[..cut];
      CutLinkFails(keys[0], children[0], cut);
    } else {
      assert b == link + rest[..cut - n];
      assert b[n..] == rest[..cut - n];
      ParseLinkInverts(keys[0], children[0], rest[..cut - n]);
      CutLinksFail(keys[1..], children[1..], cut - n);
    }
  }

  lemma {:induction false} EncodedAtLeast(es: seq<LeafEntry>)
    ensures |EncodeEntries(es)| >= 7 * |es|
    ensures forall i :: 0 <= i < |es| ==> EntrySize(es[i]) <= |EncodeEntries(es)|
  {
    if es != [] {
      EncodedAtLeast(es[1..]);
      forall i | 0 <= i < |es|
        ensures EntrySize(es[i]) <= |EncodeEntries(es)|
      {
        assert i > 0 ==> es[i] == es[1..][i - 1];
      }
    }
  }

  /**
   * Exactly when a node survives its page: a node that fits decodes to itself, and one that does
   * not fit is cut off and does not decode at all.
   */
  lemma NodeRoundTrip(n: Node)
    requires Shaped(n) && Encodable(n)
    ensures ParseNode(PageOf(n)) == if Fits(n) then Ok(n) else Err
  {
    Widths();
    hide Pow256, LE, FromLE;
    var body := NodeBytes(n);
    var p := PageOf(n).payload;
    match n
    case Leaf(es) =>
      LERoundTrip(|es|, 2);
      assert p[..2] == LE(|es|, 2);
      if Fits(n) {
        assert p[2..] == EncodeEntries(es) + [];
        ParseEntriesInverts(es, []);
      } else {
        assert p[2..] == EncodeEntries(es)[..BODY_SIZE - 2];
        CutEntriesFail(es, BODY_SIZE - 2);
      }
    case Internal(keys, children) =>
      LERoundTrip(|keys|, 2);
      LERoundTrip(children[0], 8);
      assert p[..2] == LE(|keys|, 2) && p[2..10] == LE(children[0], 8);
      assert children == [children[0]] + children[1..];
      if Fits(n) {
        assert p[10..] == EncodeLinks(keys, children[1..]) + [];
        ParseLinksInverts(keys, children[1..], []);
      } else {
        assert p[10..] == EncodeLinks(keys, children[1..])[..BODY_SIZE - 10];
        CutLinksFail(keys, children[1..], BODY_SIZE - 10);
      }
  }

  // ---- The loops that encode and decode ----

  lemma EntriesStep(es: seq<LeafEntry>, i: nat)
    requires i < |es|
    ensures EncodeEntries(es[i..]) == EncodeEntry(es[i]) + EncodeEntries(es[i + 1..])
  {
    TakeNext(es, i);
  }

  lemma LinksStep(keys: seq<bytes>, children: seq<PageId>, i: nat)
    requires i < |keys| == |children|
    ensures EncodeLinks(keys[i..], children[i..]) ==
            EncodeLink(keys[i], children[i]) + EncodeLinks(keys[i + 1..], children[i + 1..])
  {
    TakeNext(keys, i);
    TakeNext(children, i);
  }

  method LeafSize(es: seq<LeafEntry>) returns (sz: nat)
    ensures sz == |NodeBytes(Leaf(es))|
  {
    LeafStart(es);
    hide NodeBytes, EncodeEntries, EncodeEntry, EntrySize, LE;
    sz := 2;
    var i := 0;
    while i < |es|
      invariant 0 <= i <= |es|
      invariant |NodeBytes(Leaf(es))| == sz + |EncodeEntries(es[i..])|
    {
      EntriesStep(es, i);
      sz := sz + EntrySize(es[i]);
      i := i + 1;
    }
  }

  lemma LeafStart(es: seq<LeafEntry>)
    ensures NodeBytes(Leaf(es)) == LE(|es|, 2) + EncodeEntries(es[0..]) && EncodeEntries(es[|es|..]) == []
  {
    Whole(es);
  }

  method InternalSize(keys: seq<bytes>, children: seq<PageId>) returns (sz: nat)
    requires |children| == |keys| + 1
    ensures sz == |NodeBytes(Internal(keys, children))|
  {
    hide EncodeLink, LE;
    sz := 2 + 8;
    ghost var links := children[1..];
    Whole(keys);
    Whole(links);
    var i := 0;
    while i < |keys|
      invariant 0 <= i <= |keys|
      invariant |NodeBytes(Internal(keys, children))| == sz + |EncodeLinks(keys[i..], links[i..])|
    {
      LinksStep(keys, links, i);
      sz := sz + 2 + |keys[i]| + 8;
      i := i + 1;
    }
  }

  /** The size the fit test uses is the number of bytes the encoder emits. */
  method EncodedSize(n: Node) returns (sz: nat)
    requires Shaped(n)
    ensures sz == |NodeBytes(n)|
  {
    match n
    case Leaf(es) => sz := LeafSize(es);
    case Internal(keys, children) => sz := InternalSize(keys, children);
  }

  method AppendEntry(body: bytes, e: LeafEntry) returns (r: bytes)
    ensures r == body + EncodeEntry(e)
  {
    hide LE;
    r := body + LE(|e.key|, 2);
    r := r + e.key;
    match e
    case Spilled(_, head, size) =>
      r := r + [1];
      r := r + LE(head, 8);
      r := r + LE(size, 8);
    case Inline(_, value) =>
      r := r + [0];
      r := r + LE(|value|, 4);
      r := r + value;
  }

  method EncodeLeaf(es: seq<LeafEntry>) returns (body: bytes)
    ensures body == NodeBytes(Leaf(es))
  {
    hide EncodeEntry, LE;
    body := LE(|es|, 2);
    Whole(es);
    var i := 0;
    while i < |es|
      invariant 0 <= i <= |es|
      invariant NodeBytes(Leaf(es)) == body + EncodeEntries(es[i..])
    {
      EntriesStep(es, i);
      Assoc(body, EncodeEntry(es[i]), EncodeEntries(es[i + 1..]));
      body := AppendEntry(body, es[i]);
      i := i + 1;
    }
    Whole(body);
  }

  method EncodeInternal(keys: seq<bytes>, children: seq<PageId>) returns (body: bytes)
    requires |children| == |keys| + 1
    ensures body == NodeBytes(Internal(keys, children))
  {
    hide LE;
    body := LE(|keys|, 2) + LE(children[0], 8);
    ghost var links := children[1..];
    Whole(keys);
    Whole(links);
    var i := 0;
    while i < |keys|
      invariant 0 <= i <= |keys|
      invariant NodeBytes(Internal(keys, children)) == body + EncodeLinks(keys[i..], links[i..])
    {
      LinksStep(keys, links, i);
      Assoc(body, EncodeLink(keys[i], links[i]), EncodeLinks(keys[i + 1..], links[i + 1..]));
      body := body + (LE(|keys[i]|, 2) + keys[i] + LE(children[i + 1], 8));
      i := i + 1;
    }
    Whole(body);
  }

  method EncodeTo(n: Node) returns (p: Page)
    requires Shaped(n)
    ensures p == PageOf(n)
  {
    hide NodeBytes;
    var body: bytes;
    if n.Leaf? {
      body := EncodeLeaf(n.entries);
    } else {
      body := EncodeInternal(n.keys, n.children);
    }
    p := Page(if n.Leaf? then LeafPage else InternalPage, if |body| <= BODY_SIZE then body else body[..BODY_SIZE]);
  }

  lemma Window(body: bytes, start: nat, i: nat, j: nat)
    requires i <= j && start + j <= |body|
    ensures body[start + i..start + j] == body[start..][i..j]
  {
  }

  method DecodeEntry(body: bytes, start: nat) returns (r: Option<(LeafEntry, nat)>)
    requires start <= |body|
    ensures match ParseEntry(body[start..])
            case None => r == None
            case Some((e, used)) => r == Some((e, start + used)) && start + used <= |body|
  {
    hide FromLE;
    var off := start;
    ghost var b := body[start..];
    if off + 2 > |body| {
      return None;
    }
    var kl := FromLE(body[off..off + 2]);
    assert body[off..off + 2] == b[..2];
    off := off + 2;
    if off + kl + 1 > |body| {
      return None;
    }
    var key := body[off..off + kl];
    assert key == b[2..2 + kl];
    off := off + kl;
    var flag := body[off];
    off := off + 1;
    ghost var rest := b[3 + kl..];
    assert body[off..] == rest;
    if flag == 1 {
      if off + 16 > |body| {
        return None;
      }
      assert body[off..off + 8] == rest[..8] && body[off + 8..off + 16] == rest[8..16];
      return Some((Spilled(key, FromLE(body[off..off + 8]), FromLE(body[off + 8..off + 16])), off + 16));
    }
    if off + 4 > |body| {
      return None;
    }
    var vl := FromLE(body[off..off + 4]);
    assert body[off..off + 4] == rest[..4];
    off := off + 4;
    if off + vl > |body| {
      return None;
    }
    Window(body, off - 4, 4, 4 + vl);
    return Some((Inline(key, body[off..off + vl]), off + vl));
  }

  function Before<T>(done: seq<T>, rest: Option<seq<T>>): Option<seq<T>> {
    match rest
    case None => None
    case Some(s) => Some(done + s)
  }

  lemma BeforeStep<T>(done: seq<T>, x: T, rest: Option<seq<T>>)
    ensures Before(done, Before([x], rest)) == Before(done + [x], rest)
  {
    if rest.Some? {
      Assoc(done, [x], rest.value);
    }
  }

  lemma BeforeEnds<T>(done: seq<T>)
    ensures Before(done, None) == None && Before(done, Some([])) == Some(done)
  {
    Whole(done);
  }

  lemma BeforeNothing<T>(rest: Option<seq<T>>)
    ensures Before([], rest) == rest
  {
    if rest.Some? {
      Whole(rest.value);
    }
  }

  lemma ParseEntriesStep(b: bytes, n: nat)
    requires n > 0
    ensures ParseEntries(b, n) ==
            match ParseEntry(b)
            case None => None
            case Some((e, used)) => if used > |b| then None else Before([e], ParseEntries(b[used..], n - 1))
  {
  }

  lemma LeafResult(body: bytes)
    ensures ParseNode(Page(LeafPage, body)) ==
            if |body| < 2 then Err
            else match ParseEntries(body[2..], FromLE(body[..2]))
                 case None => Err
                 case Some(es) => Ok(Leaf(es))
  {
  }

  method DecodeLeaf(body: bytes) returns (r: Result<Node>)
    ensures r == ParseNode(Page(LeafPage, body))
  {
    hide *;
    LeafResult(body);
    if |body| < 2 {
      return Err;
    }
    var num := FromLE(body[..2]);
    var off := 2;
    var entries: seq<LeafEntry> := [];
    ghost var goal := ParseEntries(body[2..], num);
    BeforeNothing(goal);
    var i := 0;
    while i < num
      invariant 0 <= i <= num && 2 <= off <= |body|
      invariant goal == Before(entries, ParseEntries(body[off..], num - i))
    {
      ParseEntriesStep(body[off..], num - i);
      var next := DecodeEntry(body, off);
      if next == None {
        BeforeEnds(entries);
        return Err;
      }
      var (e, end) := next.value;
      DropDrop(body, off, end);
      BeforeStep(entries, e, ParseEntries(body[end..], num - i - 1));
      off := end;
      entries := entries + [e];
      i := i + 1;
    }
    NoEntries(body[off..]);
    BeforeEnds(entries);
    return Ok(Leaf(entries));
  }

  lemma NoEntries(b: bytes)
    ensures ParseEntries(b, 0) == Some([]) && ParseLinks(b, 0) == Some(Links([], []))
  {
  }

  function BeforeLinks(keys: seq<bytes>, children: seq<PageId>, rest: Option<Links>): Option<Links> {
    match rest
    case None => None
    case Some(l) => Some(Links(keys + l.keys, children + l.children))
  }

  lemma BeforeLinksStep(keys: seq<bytes>, children: seq<PageId>, key: bytes, child: PageId, rest: Option<Links>)
    ensures BeforeLinks(keys, children, BeforeLinks([key], [child], rest)) ==
            BeforeLinks(keys + [key], children + [child], rest)
    ensures BeforeLinks([], [], rest) == rest
  {
    if rest.Some? {
      Assoc(keys, [key], rest.value.keys);
      Assoc(children, [child], rest.value.children);
      Whole(rest.value.keys);
      Whole(rest.value.children);
    }
  }

  lemma ParseLinksStep(b: bytes, n: nat)
    requires n > 0
    ensures ParseLinks(b, n) ==
            match ParseLink(b)
            case None => None
            case Some((key, child)) =>
              if 10 + |key| > |b| then None else BeforeLinks([key], [child], ParseLinks(b[10 + |key|..], n - 1))
  {
  }

  method DecodeLink(body: bytes, start: nat) returns (r: Option<(bytes, PageId, nat)>)
    requires start <= |body|
    ensures match ParseLink(body[start..])
            case None => r == None
            case Some((key, child)) => r == Some((key, child, start + 10 + |key|)) && start + 10 + |key| <= |body|
  {
    hide FromLE;
    var off := start;
    ghost var b := body[start..];
    if off + 2 > |body| {
      return None;
    }
    var kl := FromLE(body[off..off + 2]);
    assert body[off..off + 2] == b[..2];
    off := off + 2;
    if off + kl + 8 > |body| {
      return None;
    }
    var key := body[off..off + kl];
    off := off + kl;
    assert key == b[2..2 + kl] && body[off..off + 8] == b[2 + kl..2 + kl + 8];
    return Some((key, FromLE(body[off..off + 8]), off + 8));
  }

  method DecodeInternal(body: bytes) returns (r: Result<Node>)
    ensures r == ParseNode(Page(InternalPage, body))
  {
    if |body| < 10 {
      return Err;
    }
    hide ParseLink, ParseLinks, FromLE;
    var num := FromLE(body[..2]);
    var first := FromLE(body[2..10]);
    var off := 10;
    var keys: seq<bytes>, children: seq<PageId> := [], [];
    ghost var goal := ParseLinks(body[10..], num);
    BeforeLinksStep([], [], [], 0, goal);
    var i := 0;
    while i < num
      invariant 0 <= i <= num && 10 <= off <= |body|
      invariant goal == BeforeLinks(keys, children, ParseLinks(body[off..], num - i))
    {
      ParseLinksStep(body[off..], num - i);
      var next := DecodeLink(body, off);
      if next == None {
        return Err;
      }
      var (key, child, end) := next.value;
      DropDrop(body, off, end);
      BeforeLinksStep(keys, children, key, child, ParseLinks(body[end..], num - i - 1));
      off := end;
      keys, children := keys + [key], children + [child];
      i := i + 1;
    }
    NoEntries(body[off..]);
    Whole(keys);
    Whole(children);
    return Ok(Internal(keys, [first] + children));
  }

  method DecodeNode(p: Page) returns (r: Result<Node>)
    ensures r == ParseNode(p)
  {
    match p.ptype
    case LeafPage => r := DecodeLeaf(p.payload);
    case InternalPage => r := DecodeInternal(p.payload);
    case _ => r := Err;
  }
}
