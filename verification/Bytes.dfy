/** Byte strings: the key order, the upper end of a prefix range, and fixed-width integers. */
module Bytes {
  type byte = b: int | 0 <= b < 256

  type bytes = seq<byte>

  /** Lexicographic order on byte strings. */
  predicate Less(a: bytes, b: bytes) {
    b != [] && (a == [] || a[0] < b[0] || (a[0] == b[0] && Less(a[1..], b[1..])))
  }

  /** Lexicographic order: the strings differ first where the smaller has the smaller byte or ends. */
  lemma {:induction false} LessIsLexicographic(a: bytes, b: bytes)
    ensures Less(a, b) <==> exists i :: FirstDifference(a, b, i)
  {
    if a != [] && b != [] && a[0] == b[0] {
      LessIsLexicographic(a[1..], b[1..]);
      if i: nat :| FirstDifference(a[1..], b[1..], i) {
        assert a[..i + 1] == [a[0]] + a[1..][..i] && b[..i + 1] == [b[0]] + b[1..][..i];
        assert FirstDifference(a, b, i + 1);
      }
      if i: nat :| FirstDifference(a, b, i) {
        assert i > 0;
        assert a[1..][..i - 1] == a[..i][1..] && b[1..][..i - 1] == b[..i][1..];
        assert FirstDifference(a[1..], b[1..], i - 1);
      }
    } else if b != [] && (a == [] || a[0] < b[0]) {
      assert FirstDifference(a, b, 0);
    }
  }

  ghost predicate FirstDifference(a: bytes, b: bytes, i: nat) {
    i <= |a| && i < |b| && a[..i] == b[..i] && (i == |a| || a[i] < b[i])
  }

  lemma {:induction false} LessIrreflexive(a: bytes)
    ensures !Less(a, a)
  {
    if a != [] {
      LessIrreflexive(a[1..]);
    }
  }

  lemma {:induction false} LessTransitive(a: bytes, b: bytes, c: bytes)
    requires Less(a, b) && Less(b, c)
    ensures Less(a, c)
  {
    if a != [] && a[0] == b[0] == c[0] {
      LessTransitive(a[1..], b[1..], c[1..]);
    }
  }

  /** Exactly one of `a < b`, `a == b`, `b < a` holds. */
  lemma {:induction false} LessTotal(a: bytes, b: bytes)
    ensures Less(a, b) || a == b || Less(b, a)
    ensures !(Less(a, b) && Less(b, a))
    ensures a == b ==> !Less(a, b)
  {
    if a != [] && b != [] && a[0] == b[0] {
      LessTotal(a[1..], b[1..]);
      assert a == [a[0]] + a[1..] && b == [b[0]] + b[1..];
    } else if a == [] && b == [] {
    }
  }

  lemma LessOrder()
    ensures forall a: bytes :: !Less(a, a)
    ensures forall a: bytes, b: bytes :: Less(a, b) || a == b || Less(b, a)
    ensures forall a: bytes, b: bytes :: !(Less(a, b) && Less(b, a))
    ensures forall a: bytes, b: bytes, c: bytes :: Less(a, b) && Less(b, c) ==> Less(a, c)
  {
    forall a: bytes, b: bytes
      ensures !Less(a, a) && (Less(a, b) || a == b || Less(b, a)) && !(Less(a, b) && Less(b, a))
    {
      LessIrreflexive(a);
      LessTotal(a, b);
    }
    forall a: bytes, b: bytes, c: bytes | Less(a, b) && Less(b, c)
      ensures Less(a, c)
    {
      LessTransitive(a, b, c);
    }
  }

  /** A common first part does not affect the order. */
  lemma {:induction false} LessCommonPrefix(p: bytes, a: bytes, b: bytes)
    ensures Less(p + a, p + b) <==> Less(a, b)
  {
    if p == [] {
      assert p + a == a && p + b == b;
    } else {
      LessCommonPrefix(p[1..], a, b);
      assert (p + a)[1..] == p[1..] + a && (p + b)[1..] == p[1..] + b;
    }
  }

  /** Three-way comparison by an index loop. */
  method CompareBytes(a: bytes, b: bytes) returns (c: int)
    ensures c == -1 || c == 0 || c == 1
    ensures c == -1 <==> Less(a, b)
    ensures c == 0 <==> a == b
    ensures c == 1 <==> Less(b, a)
  {
    var n := if |b| < |a| then |b| else |a|;
    var i := 0;
    LessTotal(a, b);
    while i < n
      invariant 0 <= i <= n
      invariant a[..i] == b[..i]
      invariant Less(a, b) == Less(a[i..], b[i..])
      invariant Less(b, a) == Less(b[i..], a[i..])
    {
      assert a[i..][0] == a[i] && b[i..][0] == b[i];
      assert a[i..][1..] == a[i + 1..] && b[i..][1..] == b[i + 1..];
      if a[i] != b[i] {
        return if a[i] < b[i] then -1 else 1;
      }
      i := i + 1;
    }
    if |a| < |b| {
      return -1;
    } else if |b| < |a| {
      return 1;
    }
    assert a[..n] == a && b[..n] == b;
    return 0;
  }

  datatype Bound = Key(key: bytes) | Unbounded

  /** The least string above every string that starts with `p`, if there is one. */
  function Upper(p: bytes): Bound {
    if p == [] then Unbounded
    else if p[|p| - 1] != 255 then Key(p[..|p| - 1] + [p[|p| - 1] + 1])
    else Upper(p[..|p| - 1])
  }

  predicate AtLeast(k: bytes, lo: Bound) {
    lo.Key? ==> !Less(k, lo.key)
  }

  predicate Below(k: bytes, hi: Bound) {
    hi.Key? ==> Less(k, hi.key)
  }

  /** `Upper` computed from the front, the direction in which strings are compared. */
  lemma {:induction false} UpperCons(b: byte, p: bytes)
    ensures Upper([b] + p) ==
            match Upper(p)
            case Key(u) => Key([b] + u)
            case Unbounded => if b != 255 then Key([b + 1]) else Unbounded
  {
    var q := [b] + p;
    if p == [] {
      assert q[..0] + [b + 1] == [b + 1];
    } else {
      assert q[|q| - 1] == p[|p| - 1];
      assert q[..|q| - 1] == [b] + p[..|p| - 1];
      if p[|p| - 1] != 255 {
        assert q[..|q| - 1] + [q[|q| - 1] + 1] == [b] + (p[..|p| - 1] + [p[|p| - 1] + 1]);
      } else {
        UpperCons(b, p[..|p| - 1]);
      }
    }
  }

  /** Starting with `p` is the same as lying in the range from `p` to `Upper(p)`. */
  lemma {:induction false} PrefixIsRange(p: bytes, k: bytes)
    ensures p <= k <==> !Less(k, p) && Below(k, Upper(p))
  {
    if p != [] {
      assert p == [p[0]] + p[1..];
      UpperCons(p[0], p[1..]);
      if k != [] {
        assert k == [k[0]] + k[1..];
        if k[0] == p[0] {
          PrefixIsRange(p[1..], k[1..]);
        }
        if Upper(p[1..]).Key? {
          var u := Upper(p[1..]).key;
          assert ([p[0]] + u)[1..] == u;
        } else if p[0] != 255 {
          assert k[0] == p[0] ==> Less(k, [p[0] + 1]);
          assert k[0] > p[0] ==> !Less(k, [p[0] + 1]) by { assert [p[0] + 1][1..] == []; }
        }
      }
    }
  }

  /** Computes `Upper` in place, from the last byte backwards. */
  method PrefixUpper(prefix: bytes) returns (up: Bound)
    ensures up == Upper(prefix)
  {
    var i := |prefix| - 1;
    assert prefix[..|prefix|] == prefix;
    while i >= 0
      invariant -1 <= i < |prefix|
      invariant Upper(prefix) == Upper(prefix[..i + 1])
    {
      assert prefix[..i + 1][..i] == prefix[..i];
      if prefix[i] != 255 {
        return Key(prefix[..i] + [prefix[i] + 1]);
      }
      i := i - 1;
    }
    return Unbounded;
  }

  function Pow256(w: nat): (p: nat)
    ensures p >= 1
  {
    if w == 0 then 1 else 256 * Pow256(w - 1)
  }

  lemma PowersOf256()
    ensures Pow256(1) == 0x100 && Pow256(2) == 0x1_0000 && Pow256(4) == 0x1_0000_0000
    ensures Pow256(8) == 0x1_0000_0000_0000_0000
  {
    assert Pow256(2) == 256 * Pow256(1);
    assert Pow256(3) == 256 * Pow256(2);
    assert Pow256(4) == 256 * Pow256(3);
    assert Pow256(5) == 256 * Pow256(4);
    assert Pow256(6) == 256 * Pow256(5);
    assert Pow256(7) == 256 * Pow256(6);
    assert Pow256(8) == 256 * Pow256(7);
  }

  /** The `w` low-order bytes of `n`, least significant first; higher bytes are lost. */
  function LE(n: nat, w: nat): (r: bytes)
    ensures |r| == w
  {
    if w == 0 then [] else [n % 256] + LE(n / 256, w - 1)
  }

  function FromLE(b: bytes): (n: nat)
    ensures n < Pow256(|b|)
  {
    if b == [] then 0 else b[0] + 256 * FromLE(b[1..])
  }

  lemma {:induction false} LERoundTrip(n: nat, w: nat)
    requires n < Pow256(w)
    ensures FromLE(LE(n, w)) == n
  {
    if w > 0 {
      LERoundTrip(n / 256, w - 1);
      assert LE(n, w)[1..] == LE(n / 256, w - 1);
    }
  }

  lemma LEHead(x: byte, n: nat, w: nat)
    ensures LE(x + 256 * n, w + 1) == [x] + LE(n, w)
  {
    LowByte(x, n);
    LEUnfold(x + 256 * n, w + 1);
    hide LE;
  }

  lemma LowByte(x: byte, n: nat)
    ensures (x + 256 * n) % 256 == x && (x + 256 * n) / 256 == n
  {
  }

  lemma LEUnfold(n: nat, w: nat)
    requires w > 0
    ensures LE(n, w) == [n % 256] + LE(n / 256, w - 1)
  {
  }

  lemma LETwo(a: byte, b: byte, n: nat, w: nat)
    ensures LE(a + 0x100 * b + 0x1_0000 * n, w + 2) == [a, b] + LE(n, w)
  {
    hide LE;
    LEHead(a, b + 256 * n, w + 1);
    LEHead(b, n, w);
  }

  /** Which byte goes where: the least significant comes first. */
  lemma LEOfTwo(a: byte, b: byte)
    ensures LE(a + 0x100 * b, 2) == [a, b]
  {
    LETwo(a, b, 0, 0);
    assert LE(0, 0) == [];
    hide LE;
  }

  lemma LEOfFour(a: byte, b: byte, c: byte, d: byte)
    ensures LE(a + 0x100 * b + 0x1_0000 * c + 0x100_0000 * d, 4) == [a, b, c, d]
  {
    hide LE;
    LETwo(a, b, c + 0x100 * d, 2);
    LEOfTwo(c, d);
  }

  lemma LEOfEight(low: nat, high: nat)
    requires low < 0x1_0000_0000
    ensures LE(low + 0x1_0000_0000 * high, 8) == LE(low, 4) + LE(high, 4)
  {
    hide LE;
    var a, b, rest := low % 256, low / 256 % 256, low / 0x1_0000;
    var c, d := rest % 256, rest / 256;
    LETwo(a, b, rest + 0x1_0000 * high, 6);
    LETwo(c, d, high, 4);
    LEOfFour(a, b, c, d);
  }

  /** The `w` low-order bytes of `n`, most significant first. */
  function BE(n: nat, w: nat): (r: bytes)
    ensures |r| == w
  {
    if w == 0 then [] else BE(n / 256, w - 1) + [n % 256]
  }

  function FromBE(b: bytes): (n: nat)
    ensures n < Pow256(|b|)
  {
    if b == [] then 0 else 256 * FromBE(b[..|b| - 1]) + b[|b| - 1]
  }

  lemma {:induction false} BERoundTrip(n: nat, w: nat)
    requires n < Pow256(w)
    ensures FromBE(BE(n, w)) == n
  {
    if w > 0 {
      BERoundTrip(n / 256, w - 1);
      assert BE(n, w)[..w - 1] == BE(n / 256, w - 1);
    }
  }

  lemma {:induction false} LessSnoc(a: bytes, b: bytes, x: byte, y: byte)
    requires |a| == |b|
    ensures Less(a + [x], b + [y]) <==> Less(a, b) || (a == b && x < y)
  {
    if a == [] {
      assert a + [x] == [x] && b + [y] == [y];
    } else {
      LessSnoc(a[1..], b[1..], x, y);
      assert (a + [x])[1..] == a[1..] + [x] && (b + [y])[1..] == b[1..] + [y];
      assert a == [a[0]] + a[1..] && b == [b[0]] + b[1..];
    }
  }

  /** Big-endian encoding turns the order of numbers into the order of byte strings. */
  lemma {:induction false} BEMonotone(m: nat, n: nat, w: nat)
    requires m < Pow256(w) && n < Pow256(w)
    ensures Less(BE(m, w), BE(n, w)) <==> m < n
  {
    if w > 0 {
      BEMonotone(m / 256, n / 256, w - 1);
      LessSnoc(BE(m / 256, w - 1), BE(n / 256, w - 1), m % 256, n % 256);
      BERoundTrip(m / 256, w - 1);
      BERoundTrip(n / 256, w - 1);
    }
  }
}
