/**
  Byte strings as RocksDB keys: the unsigned lexicographic order that both
  RocksDB's bytewise comparator and std::string_view use, and the big-endian
  encoding of 64-bit integers that the key and time encoders store.
 */
module ByteStrings {

  type Byte = b: int | 0 <= b < 0x100
  type Bytes = seq<Byte>

  const TWO64: int := 0x1_0000_0000_0000_0000
  const TWO63: int := 0x8000_0000_0000_0000

  /** uint64_t and int64_t. */
  type U64 = v: int | 0 <= v < TWO64
  type I64 = v: int | -TWO63 <= v < TWO63

  // ---------------------------------------------------------------- order

  /** a < b, comparing unsigned bytes left to right, a proper prefix being smaller. */
  predicate Less(a: Bytes, b: Bytes)
    decreases |a|
  {
    |b| > 0 &&
    (|a| == 0 || a[0] < b[0] || (a[0] == b[0] && Less(a[1..], b[1..])))
  }

  lemma {:induction false} LessIrreflexive(a: Bytes)
    ensures !Less(a, a)
    decreases |a|
  {
    if |a| > 0 { LessIrreflexive(a[1..]); }
  }

  lemma {:induction false} LessTransitive(a: Bytes, b: Bytes, c: Bytes)
    requires Less(a, b) && Less(b, c)
    ensures Less(a, c)
    decreases |a|
  {
    if |a| > 0 && a[0] == b[0] == c[0] { LessTransitive(a[1..], b[1..], c[1..]); }
  }

  lemma {:induction false} LessTotal(a: Bytes, b: Bytes)
    ensures Less(a, b) || Less(b, a) || a == b
    decreases |a|
  {
    if |a| > 0 && |b| > 0 && a[0] == b[0] {
      LessTotal(a[1..], b[1..]);
      if a[1..] == b[1..] {
        assert a == [a[0]] + a[1..] && b == [b[0]] + b[1..];
      }
    }
  }

  /** The order laws, for use inside quantified proofs. */
  lemma OrderLaws()
    ensures forall a: Bytes :: !Less(a, a)
    ensures forall a: Bytes, b: Bytes :: Less(a, b) || Less(b, a) || a == b
    ensures forall a: Bytes, b: Bytes, c: Bytes :: Less(a, b) && Less(b, c) ==> Less(a, c)
  {
    forall a: Bytes ensures !Less(a, a) { LessIrreflexive(a); }
    forall a: Bytes, b: Bytes ensures Less(a, b) || Less(b, a) || a == b { LessTotal(a, b); }
    forall a: Bytes, b: Bytes, c: Bytes | Less(a, b) && Less(b, c) ensures Less(a, c) { LessTransitive(a, b, c); }
  }

  /** A common prefix does not change the order. */
  lemma {:induction false} LessUnderPrefix(p: Bytes, a: Bytes, b: Bytes)
    ensures Less(p + a, p + b) <==> Less(a, b)
    decreases |p|
  {
    if |p| == 0 {
      assert p + a == a && p + b == b;
    } else {
      assert (p + a)[1..] == p[1..] + a && (p + b)[1..] == p[1..] + b;
      LessUnderPrefix(p[1..], a, b);
    }
  }

  /** Between strings of one length the order is decided before anything appended to them. */
  lemma {:induction false} LessBeforeSuffix(a: Bytes, b: Bytes, x: Bytes, y: Bytes)
    requires |a| == |b| && Less(a, b)
    ensures Less(a + x, b + y)
    decreases |a|
  {
    if a[0] == b[0] {
      assert (a + x)[1..] == a[1..] + x && (b + y)[1..] == b[1..] + y;
      LessBeforeSuffix(a[1..], b[1..], x, y);
    }
  }

  // ----------------------------------------------------------- big endian

  function Pow256(n: nat): (p: nat)
    ensures p >= 1
  {
    if n == 0 then 1 else 0x100 * Pow256(n - 1)
  }

  /** The n low-order bytes of v, most significant first. */
  function BigEndian(v: nat, n: nat): (s: Bytes)
    ensures |s| == n
  {
    if n == 0 then [] else BigEndian(v / 0x100, n - 1) + [v % 0x100]
  }

  function FromBigEndian(s: Bytes): (v: nat)
  {
    if |s| == 0 then 0 else 0x100 * FromBigEndian(s[..|s| - 1]) + s[|s| - 1]
  }

  lemma {:induction false} BigEndianRoundTrip(v: nat, n: nat)
    requires v < Pow256(n)
    ensures FromBigEndian(BigEndian(v, n)) == v
  {
    if n > 0 {
      BigEndianRoundTrip(v / 0x100, n - 1);
      assert BigEndian(v, n)[..n - 1] == BigEndian(v / 0x100, n - 1);
    }
  }

  /** Byte order of equal-width encodings is numeric order. */
  lemma {:induction false} BigEndianMonotone(a: nat, b: nat, n: nat)
    requires a < b < Pow256(n)
    ensures Less(BigEndian(a, n), BigEndian(b, n))
  {
    var p, q := BigEndian(a / 0x100, n - 1), BigEndian(b / 0x100, n - 1);
    if a / 0x100 < b / 0x100 {
      BigEndianMonotone(a / 0x100, b / 0x100, n - 1);
      LessBeforeSuffix(p, q, [a % 0x100], [b % 0x100]);
    } else {
      assert p == q;
      LessUnderPrefix(p, [a % 0x100], [b % 0x100]);
    }
  }

  lemma Pow256Of8()
    ensures Pow256(8) == TWO64
  {
  }

  /** What absl::big_endian::Store64 leaves in eight bytes. */
  function Encode64(v: U64): (s: Bytes)
    ensures |s| == 8
  {
    BigEndian(v, 8)
  }

  /** absl::big_endian::Load64. */
  function Decode64(s: Bytes): (v: U64)
    requires |s| == 8
    ensures Encode64(v) == s
  {
    LoadBound(s);
    Pow256Of8();
    FromBigEndian(s)
  }

  lemma {:induction false} LoadBound(s: Bytes)
    ensures FromBigEndian(s) < Pow256(|s|)
    ensures BigEndian(FromBigEndian(s), |s|) == s
    decreases |s|
  {
    if |s| > 0 { LoadBound(s[..|s| - 1]); }
  }

  lemma Encode64RoundTrip(v: U64)
    ensures Decode64(Encode64(v)) == v
  {
    Pow256Of8();
    BigEndianRoundTrip(v, 8);
  }

  lemma Encode64Injective(v: U64, w: U64)
    ensures Encode64(v) == Encode64(w) <==> v == w
  {
    Encode64RoundTrip(v);
    Encode64RoundTrip(w);
  }

  /** int64_t passed where uint64_t is expected, and back: two's complement. */
  function ToUnsigned(v: I64): (u: U64)
  {
    if v < 0 then v + TWO64 else v
  }

  function ToSigned(u: U64): (v: I64)
    ensures ToUnsigned(v) == u
  {
    if u >= TWO63 then u - TWO64 else u
  }

  /** Fills the first eight bytes of a buffer and leaves the rest alone. */
  method Store64(buf: array<Byte>, v: U64)
    requires buf.Length >= 8
    modifies buf
    ensures buf[..8] == Encode64(v)
    ensures buf[8..] == old(buf[8..])
  {
    var i, w: nat := 8, v;
    while i > 0
      invariant 0 <= i <= 8
      invariant BigEndian(w, i) + buf[i..8] == Encode64(v)
      invariant buf[8..] == old(buf[8..])
    {
      ghost var tail := buf[i..8];
      ghost var front := BigEndian(w, i);
      i := i - 1;
      buf[i] := w % 0x100;
      w := w / 0x100;
      assert buf[i..8] == [buf[i]] + tail;
      assert front == BigEndian(w, i) + [buf[i]];
    }
  }

  // ------------------------------------------------- ascending selections

  ghost predicate Ascending(ks: seq<Bytes>) {
    forall i, j :: 0 <= i < j < |ks| ==> Less(ks[i], ks[j])
  }

  /** ks is the first `limit` members of s in byte order, or all of s when there are fewer. */
  ghost predicate FirstOf(ks: seq<Bytes>, s: set<Bytes>, limit: nat) {
    && Ascending(ks)
    && |ks| <= limit
    && (forall k :: k in ks ==> k in s)
    && (forall x :: x in s && x !in ks ==> |ks| == limit && forall k :: k in ks ==> Less(k, x))
  }

  lemma {:induction false} AscendingDistinctSize(ks: seq<Bytes>)
    requires Ascending(ks)
    ensures |set k | k in ks| == |ks|
    decreases |ks|
  {
    if |ks| > 0 {
      var n := |ks| - 1;
      AscendingDistinctSize(ks[..n]);
      LessIrreflexive(ks[n]);
      assert (set k | k in ks) == (set k | k in ks[..n]) + {ks[n]};
      assert ks[n] !in ks[..n] by {
        forall i | 0 <= i < n ensures ks[i] != ks[n] {
          assert Less(ks[i], ks[n]);
        }
      }
    }
  }

  /** FirstOf pins its sequence down: there is only one. */
  lemma FirstOfUnique(p: seq<Bytes>, q: seq<Bytes>, s: set<Bytes>, limit: nat)
    requires FirstOf(p, s, limit) && FirstOf(q, s, limit)
    ensures p == q
  {
    FirstOfSubset(p, q, s, limit);
    FirstOfSubset(q, p, s, limit);
    AscendingSameSet(p, q);
  }

  lemma FirstOfSubset(p: seq<Bytes>, q: seq<Bytes>, s: set<Bytes>, limit: nat)
    requires FirstOf(p, s, limit) && FirstOf(q, s, limit)
    ensures forall k :: k in p ==> k in q
  {
    forall k | k in p ensures k in q {
      if k !in q {
        // q is full and lies below k, so p misses some member of q that is below k
        var P, Q := set x | x in p, set x | x in q;
        AscendingDistinctSize(p);
        AscendingDistinctSize(q);
        assert |Q| == limit && |P| <= limit;
        if Q <= P {
          assert Q < P by { assert k in P && k !in Q; }
          ProperSubsetSmaller(Q, P);
          assert false;
        }
        var x :| x in Q && x !in P;
        assert Less(k, x) && Less(x, k);
        LessTransitive(k, x, k);
        LessIrreflexive(k);
      }
    }
  }

  lemma ProperSubsetSmaller<T>(a: set<T>, b: set<T>)
    requires a < b
    ensures |a| < |b|
  {
    var d := b - a;
    assert b == a + d && a !! d;
    assert d != {};
    assert |b| == |a| + |d|;
  }

  lemma {:induction false} AscendingSameSet(p: seq<Bytes>, q: seq<Bytes>)
    requires Ascending(p) && Ascending(q)
    requires forall k :: k in p <==> k in q
    ensures p == q
    decreases |p|
  {
    OrderLaws();
    assert |p| > 0 ==> p[0] in q;
    assert |q| > 0 ==> q[0] in p;
    if |p| > 0 && |q| > 0 {
      assert p[0] == q[0] by {
        assert p[0] in q && q[0] in p;
        var i :| 0 <= i < |q| && q[i] == p[0];
        var j :| 0 <= j < |p| && p[j] == q[0];
      }
      forall k ensures k in p[1..] <==> k in q[1..] {
        if k in p[1..] { assert k in q; assert Less(p[0], k); }
        if k in q[1..] { assert k in p; assert Less(q[0], k); }
      }
      AscendingSameSet(p[1..], q[1..]);
      assert p == [p[0]] + p[1..] && q == [q[0]] + q[1..];
    }
  }

  lemma FirstOfSize(ks: seq<Bytes>, s: set<Bytes>, limit: nat)
    requires FirstOf(ks, s, limit)
    ensures |ks| == if |s| < limit then |s| else limit
  {
    var K := set k | k in ks;
    AscendingDistinctSize(ks);
    if K == s {
    } else {
      assert K < s;
      ProperSubsetSmaller(K, s);
    }
  }

  /** x is the least member of s at or above `from`: where an iterator stands after Seek(from). */
  predicate IsSeek(s: set<Bytes>, from: Bytes, x: Bytes) {
    x in s && !Less(x, from) && forall y :: y in s && !Less(y, from) ==> !Less(y, x)
  }

  lemma {:induction false} SeekExists(s: set<Bytes>, from: Bytes)
    requires exists y :: y in s && !Less(y, from)
    ensures exists x :: IsSeek(s, from, x)
    decreases |s|
  {
    OrderLaws();
    var y :| y in s && !Less(y, from);
    if z :| z in s && !Less(z, from) && Less(z, y) {
      var t := s - {y};
      assert |t| < |s|;
      SeekExists(t, from);
      var x :| IsSeek(t, from, x);
      assert IsSeek(s, from, x);
    } else {
      assert IsSeek(s, from, y);
    }
  }
}
