/** The one ordered keyspace that holds class definitions and objects (wal/record.go). */
module Keys {
  import opened Bytes
  import opened Wrappers

  const NS_CLASS: byte := 1
  const NS_OBJECT: byte := 2

  type int64 = i: int | -0x8000_0000_0000_0000 <= i < 0x8000_0000_0000_0000

  /** Two's complement: how Go converts int64 to uint64. */
  function ToUint64(i: int64): (n: nat)
    ensures n < 0x1_0000_0000_0000_0000
  {
    if i < 0 then i + 0x1_0000_0000_0000_0000 else i
  }

  function ToInt64(n: nat): int64
    requires n < 0x1_0000_0000_0000_0000
  {
    if n < 0x8000_0000_0000_0000 then n else n - 0x1_0000_0000_0000_0000
  }

  /** What name validation guarantees: no separator byte inside a project or class name. */
  predicate ZeroFree(name: bytes) {
    forall i :: 0 <= i < |name| ==> name[i] != 0
  }

  function Scope(project: bytes): bytes {
    if project == [] then [] else project + [0]
  }

  function ClassKey(project: bytes, cls: bytes): bytes {
    [NS_CLASS] + Scope(project) + cls
  }

  function ObjectPrefix(project: bytes, cls: bytes): bytes {
    [NS_OBJECT] + Scope(project) + cls + [0]
  }

  function ObjectKey(project: bytes, cls: bytes, id: int64): bytes {
    ObjectPrefix(project, cls) + EncodeId(id)
  }

  function ScopeKey(project: bytes, cls: bytes): bytes {
    project + [0] + cls
  }

  function FirstZero(b: bytes): (i: int)
    ensures -1 <= i < |b|
    ensures i == -1 ==> ZeroFree(b)
    ensures i >= 0 ==> b[i] == 0 && ZeroFree(b[..i])
  {
    if b == [] then -1
    else if b[0] == 0 then 0
    else
      var j := FirstZero(b[1..]);
      assert j >= 0 ==> b[..j + 1] == [b[0]] + b[1..][..j];
      if j < 0 then -1 else j + 1
  }

  method IndexZero(b: bytes) returns (i: int)
    ensures i == FirstZero(b)
  {
    i := 0;
    while i < |b|
      invariant 0 <= i <= |b|
      invariant FirstZero(b) == var j := FirstZero(b[i..]); if j < 0 then -1 else i + j
    {
      if b[i] == 0 {
        return i;
      }
      assert b[i..][1..] == b[i + 1..];
      i := i + 1;
    }
    return -1;
  }

  function SplitScope(body: bytes): (bytes, bytes) {
    var i := FirstZero(body);
    if i >= 0 then (body[..i], body[i + 1..]) else ([], body)
  }

  function EncodeId(id: int64): (b: bytes)
    ensures |b| == 8
  {
    BE(ToUint64(id), 8)
  }

  function DecodeId(b: bytes): int64
    requires |b| == 8
  {
    PowersOf256();
    ToInt64(FromBE(b))
  }

  lemma DecodeIdInverts(id: int64)
    ensures DecodeId(EncodeId(id)) == id
  {
    PowersOf256();
    BERoundTrip(ToUint64(id), 8);
  }

  datatype ObjectName = ObjectName(project: bytes, cls: bytes, id: int64)
  datatype ClassName = ClassName(project: bytes, cls: bytes)

  function DecodeObjectKey(key: bytes): Option<ObjectName> {
    if |key| < 10 || key[0] != NS_OBJECT then None
    else
      var sep := |key| - 9;
      if key[sep] != 0 then None
      else
        var (project, cls) := SplitScope(key[1..sep]);
        Some(ObjectName(project, cls, DecodeId(key[sep + 1..])))
  }

  function DecodeClassKey(key: bytes): Option<ClassName> {
    if |key| < 1 || key[0] != NS_CLASS then None
    else
      var (project, cls) := SplitScope(key[1..]);
      Some(ClassName(project, cls))
  }

  lemma {:induction false} FirstZeroAfter(a: bytes, x: bytes)
    requires ZeroFree(a)
    ensures FirstZero(a + [0] + x) == |a|
    ensures FirstZero(a) == -1
  {
    if a == [] {
      assert a + [0] + x == [0] + x;
    } else {
      FirstZeroAfter(a[1..], x);
      assert (a + [0] + x)[1..] == a[1..] + [0] + x;
    }
  }

  /** Splitting at the first zero recovers the two names, whether the project is named or not. */
  lemma SplitScopeInverts(project: bytes, cls: bytes)
    requires ZeroFree(project) && ZeroFree(cls)
    ensures SplitScope(Scope(project) + cls) == (project, cls)
  {
    FirstZeroAfter(project, cls);
    FirstZeroAfter(cls, []);
    if project == [] {
      assert Scope(project) + cls == cls;
    } else {
      var body := project + [0] + cls;
      assert body[..|project|] == project && body[|project| + 1..] == cls;
    }
  }

  /** Decoding inverts encoding for default and named projects and for every int64 id. */
  lemma DecodeObjectInverts(project: bytes, cls: bytes, id: int64)
    requires ZeroFree(project) && ZeroFree(cls)
    ensures DecodeObjectKey(ObjectKey(project, cls, id)) == Some(ObjectName(project, cls, id))
    ensures DecodeClassKey(ObjectKey(project, cls, id)) == None
  {
    hide ZeroFree, EncodeId, SplitScope, Scope, DecodeId, DecodeClassKey, ObjectKey;
    ObjectKeyFields(project, cls, id);
    SplitScopeInverts(project, cls);
    DecodeIdInverts(id);
  }

  lemma ObjectKeyFields(project: bytes, cls: bytes, id: int64)
    ensures var key := ObjectKey(project, cls, id); var sep := |key| - 9;
            && sep >= 1 && key[0] == NS_OBJECT && key[1..sep] == Scope(project) + cls && key[sep] == 0
            && key[sep + 1..] == EncodeId(id)
    ensures DecodeClassKey(ObjectKey(project, cls, id)) == None
  {
    hide Scope, EncodeId, SplitScope;
  }

  lemma DecodeClassInverts(project: bytes, cls: bytes)
    requires ZeroFree(project) && ZeroFree(cls)
    ensures DecodeClassKey(ClassKey(project, cls)) == Some(ClassName(project, cls))
    ensures DecodeObjectKey(ClassKey(project, cls)) == None
  {
    assert ClassKey(project, cls)[1..] == Scope(project) + cls;
    SplitScopeInverts(project, cls);
  }

  /** Different rows never share a key. */
  lemma KeysInjective(p: bytes, c: bytes, id: int64, p': bytes, c': bytes, id': int64)
    requires ZeroFree(p) && ZeroFree(c) && ZeroFree(p') && ZeroFree(c')
    ensures ObjectKey(p, c, id) == ObjectKey(p', c', id') <==> p == p' && c == c' && id == id'
    ensures ClassKey(p, c) == ClassKey(p', c') <==> p == p' && c == c'
    ensures ObjectKey(p, c, id) != ClassKey(p', c')
    ensures ScopeKey(p, c) == ScopeKey(p', c') <==> p == p' && c == c'
  {
    hide *;
    DecodeObjectInverts(p, c, id);
    DecodeObjectInverts(p', c', id');
    DecodeClassInverts(p, c);
    DecodeClassInverts(p', c');
    ScopeKeyParts(p, c);
    ScopeKeyParts(p', c');
  }

  lemma ScopeKeyParts(project: bytes, cls: bytes)
    requires ZeroFree(project) && ZeroFree(cls)
    ensures var s := ScopeKey(project, cls); var z := FirstZero(s);
            0 <= z < |s| && project == s[..z] && cls == s[z + 1..]
  {
    FirstZeroAfter(project, cls);
  }

  /** All class rows come before all object rows. */
  lemma ClassesComeFirst(p: bytes, c: bytes, p': bytes, c': bytes, id: int64)
    ensures Less(ClassKey(p, c), ObjectKey(p', c', id))
  {
    assert ClassKey(p, c)[0] < ObjectKey(p', c', id)[0];
  }

  /** Within a class, key order is id order. */
  lemma ObjectKeysAscend(project: bytes, cls: bytes, a: int64, b: int64)
    requires a >= 0 && b >= 0
    ensures Less(ObjectKey(project, cls, a), ObjectKey(project, cls, b)) <==> a < b
  {
    LessCommonPrefix(ObjectPrefix(project, cls), EncodeId(a), EncodeId(b));
    PowersOf256();
    BEMonotone(a, b, 8);
  }

  /** A zero-free name followed by the separator can only match itself. */
  lemma SeparatorMatches(a: bytes, x: bytes, b: bytes, y: bytes)
    requires ZeroFree(a) && ZeroFree(b)
    ensures a + [0] + x <= b + [0] + y <==> a == b && x <= y
  {
    var s, t := a + [0] + x, b + [0] + y;
    if s <= t {
      var rest := t[|s|..];
      assert t == a + [0] + (x + rest);
      FirstZeroAfter(a, x + rest);
      FirstZeroAfter(b, y);
      assert t[..|a|] == a && t[..|a|] == b;
      assert y == t[|a| + 1..] == x + rest;
    }
    if a == b && x <= y {
      assert t == s + y[|x|..];
    }
  }

  lemma SameHead(h: byte, x: bytes, y: bytes)
    ensures [h] + x <= [h] + y <==> x <= y
  {
    if [h] + x <= [h] + y {
      assert y == ([h] + y)[1..] && x == ([h] + x)[1..];
      assert y[..|x|] == ([h] + y)[1..|x| + 1];
    }
    if x <= y {
      assert [h] + y == [h] + x + y[|x|..];
    }
  }

  /**
   * Exactly which object keys a class scan visits: those of the class itself, those of the named
   * project that is called like a default-project class, and those default-project objects whose
   * id happens to start with the class name's bytes.
   */
  lemma PrefixOverlap(p: bytes, c: bytes, p': bytes, c': bytes, id': int64)
    requires ZeroFree(p) && ZeroFree(c) && ZeroFree(p') && ZeroFree(c')
    ensures ObjectPrefix(p, c) <= ObjectKey(p', c', id') <==>
              || (p' == p && c' == c)
              || (p == [] && p' != [] && p' == c)
              || (p != [] && p' == [] && c' == p && c + [0] <= EncodeId(id'))
  {
    var id8 := EncodeId(id');
    var pre := if p == [] then c + [0] + [] else p + [0] + (c + [0]);
    var key := if p' == [] then c' + [0] + id8 else p' + [0] + (c' + [0] + id8);
    assert ObjectPrefix(p, c) == [NS_OBJECT] + pre;
    assert ObjectKey(p', c', id') == [NS_OBJECT] + key;
    SameHead(NS_OBJECT, pre, key);
    if p == [] {
      SeparatorMatches(c, [], if p' == [] then c' else p', if p' == [] then id8 else c' + [0] + id8);
    } else {
      SeparatorMatches(p, c + [0], if p' == [] then c' else p', if p' == [] then id8 else c' + [0] + id8);
      assert c + [0] == c + [0] + [];
      SeparatorMatches(c, [], c', id8);
    }
  }

  /** So the decoded-scope filter on top of the prefix keeps exactly one class's objects. */
  predicate SelectedBy(project: bytes, cls: bytes, key: bytes) {
    ObjectPrefix(project, cls) <= key
    && var name := DecodeObjectKey(key);
       name.Some? && name.value.project == project && name.value.cls == cls
  }

  lemma ScanSelectsExactlyTheClass(p: bytes, c: bytes, p': bytes, c': bytes, id': int64)
    requires ZeroFree(p) && ZeroFree(c) && ZeroFree(p') && ZeroFree(c')
    ensures SelectedBy(p, c, ObjectKey(p', c', id')) <==> p' == p && c' == c
    ensures !SelectedBy(p, c, ClassKey(p', c'))
  {
    PrefixOverlap(p, c, p', c', id');
    DecodeObjectInverts(p', c', id');
    DecodeClassInverts(p', c');
  }

  /** The filter is needed: the default project's class "A" and the named project "A" overlap. */
  lemma PrefixAloneIsNotEnough()
    ensures exists c, p', c', id' ::
              ZeroFree(c) && ZeroFree(p') && ZeroFree(c') && p' != [] && id' > 0 && ObjectPrefix([], c) <= ObjectKey(p', c', id')
  {
    PrefixOverlap([], [65], [65], [66], 1);
    assert ZeroFree([65]) && ZeroFree([66]) && ObjectPrefix([], [65]) <= ObjectKey([65], [66], 1);
  }
}
