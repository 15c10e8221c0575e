/** Byte strings as the database sees them: lexicographic order, big-endian
    integers, and the UTF-8 well-formedness that string records rely on. */
module Bytes {

  type byte = b: int | 0 <= b < 256

  /** Record separator; a byte no UTF-8 string contains. */
  const SEP: byte := 0xFF

  // ---------------------------------------------------------------- ordering

  /** Strict lexicographic order: the key order of a column family. */
  predicate Less(a: seq<byte>, b: seq<byte>)
  {
    b != [] && (a == [] || a[0] < b[0] || (a[0] == b[0] && Less(a[1..], b[1..])))
  }

  predicate LessEq(a: seq<byte>, b: seq<byte>) {
    a == b || Less(a, b)
  }

  lemma {:induction false} LessIrreflexive(a: seq<byte>)
    ensures !Less(a, a)
  {
    if a != [] {
      LessIrreflexive(a[1..]);
    }
  }

  lemma {:induction false} LessTransitive(a: seq<byte>, b: seq<byte>, c: seq<byte>)
    requires Less(a, b) && Less(b, c)
    ensures Less(a, c)
  {
    if a != [] && a[0] == b[0] && b[0] == c[0] {
      LessTransitive(a[1..], b[1..], c[1..]);
    }
  }

  lemma {:induction false} LessTotal(a: seq<byte>, b: seq<byte>)
    ensures a == b || Less(a, b) || Less(b, a)
  {
    if a != [] && b != [] && a[0] == b[0] {
      LessTotal(a[1..], b[1..]);
      assert a == [a[0]] + a[1..] && b == [b[0]] + b[1..];
    }
  }

  /** A shared prefix never influences a comparison. */
  lemma {:induction false} LessAfterPrefix(p: seq<byte>, x: seq<byte>, y: seq<byte>)
    ensures Less(p + x, p + y) <==> Less(x, y)
  {
    if p == [] {
      assert p + x == x && p + y == y;
    } else {
      assert (p + x)[1..] == p[1..] + x && (p + y)[1..] == p[1..] + y;
      LessAfterPrefix(p[1..], x, y);
    }
  }

  /** A prefix is the least of its extensions. */
  lemma {:induction false} PrefixIsLeast(p: seq<byte>, k: seq<byte>)
    requires p <= k
    ensures LessEq(p, k)
  {
    if p != [] {
      PrefixIsLeast(p[1..], k[1..]);
      assert p == [p[0]] + p[1..] && k == [k[0]] + k[1..];
    }
  }

  /** The extensions of a prefix are an interval of the key order. */
  lemma {:induction false} PrefixIsConvex(p: seq<byte>, k: seq<byte>, k': seq<byte>)
    requires LessEq(p, k) && Less(k, k') && p <= k'
    ensures p <= k
  {
    if p != [] {
      assert k != [];
      assert k[0] == p[0];
      if p == k {
      } else {
        PrefixIsConvex(p[1..], k[1..], k'[1..]);
        assert p == [p[0]] + p[1..] && k == [k[0]] + k[1..];
      }
    }
  }

  /** Strictly increasing list of keys: what one pass of a cursor sees. */
  predicate Sorted(ks: seq<seq<byte>>) {
    forall i, j :: 0 <= i < j < |ks| ==> Less(ks[i], ks[j])
  }

  lemma LessAsymmetric(a: seq<byte>, b: seq<byte>)
    requires Less(a, b)
    ensures !Less(b, a)
  {
    if Less(b, a) {
      LessTransitive(a, b, a);
      LessIrreflexive(a);
    }
  }

  predicate IsLeast(k: seq<byte>, keys: set<seq<byte>>) {
    k in keys && forall x :: x in keys ==> LessEq(k, x)
  }

  lemma {:induction false} HasLeast(keys: set<seq<byte>>)
    requires keys != {}
    ensures exists k :: IsLeast(k, keys)
    decreases |keys|
  {
    var x :| x in keys;
    var rest := keys - {x};
    if rest == {} {
      assert keys == {x};
      assert IsLeast(x, keys);
    } else {
      HasLeast(rest);
      var k :| IsLeast(k, rest);
      LessTotal(x, k);
      hide Less;
      var least := if Less(x, k) then x else k;
      forall y | y in keys
        ensures LessEq(least, y)
      {
        assert y != x ==> y in rest && LessEq(k, y);
        if y != x && least == x && y != k {
          LessTransitive(x, k, y);
        }
      }
      assert IsLeast(least, keys);
    }
  }

  lemma LeastIsUnique(keys: set<seq<byte>>)
    ensures forall k, m :: IsLeast(k, keys) && IsLeast(m, keys) ==> k == m
  {
    forall k, m | IsLeast(k, keys) && IsLeast(m, keys)
      ensures k == m
    {
      assert LessEq(k, m) && LessEq(m, k);
      if k != m {
        LessAsymmetric(k, m);
      }
    }
  }

  /** The keys of a table as a cursor lists them. */
  function Listing(keys: set<seq<byte>>): (ks: seq<seq<byte>>)
    ensures Sorted(ks)
    ensures forall k :: k in ks <==> k in keys
    decreases |keys|
  {
    if keys == {} then []
    else
      HasLeast(keys);
      LeastIsUnique(keys);
      var k :| IsLeast(k, keys);
      ListingStep(k, keys, Listing(keys - {k}));
      [k] + Listing(keys - {k})
  }

  lemma ListingStep(k: seq<byte>, keys: set<seq<byte>>, rest: seq<seq<byte>>)
    requires IsLeast(k, keys) && Sorted(rest) && forall x :: x in rest <==> x in keys - {k}
    ensures Sorted([k] + rest)
    ensures forall x :: x in [k] + rest <==> x in keys
  {
    hide Less;
    forall i | 0 <= i < |rest|
      ensures Less(k, rest[i])
    {
      assert rest[i] in rest;
    }
  }

  lemma SortedIsDistinct(ks: seq<seq<byte>>, i: nat, j: nat)
    requires Sorted(ks) && i < j < |ks|
    ensures ks[i] != ks[j]
  {
    LessIrreflexive(ks[j]);
  }

  // -------------------------------------------------------- big-endian numbers

  function Pow256(n: nat): (r: nat)
    ensures r > 0
  {
    if n == 0 then 1 else 256 * Pow256(n - 1)
  }

  /** The n big-endian bytes of v (`to_be_bytes`). */
  function BeBytes(v: nat, n: nat): (r: seq<byte>)
    requires v < Pow256(n)
    ensures |r| == n
  {
    if n == 0 then [] else BeBytes(v / 256, n - 1) + [v % 256]
  }

  /** The number a big-endian byte string denotes (`from_be_bytes`). */
  function FromBe(bs: seq<byte>): nat {
    if bs == [] then 0 else FromBe(bs[..|bs| - 1]) * 256 + bs[|bs| - 1]
  }

  lemma {:induction false} BeRoundTrip(v: nat, n: nat)
    requires v < Pow256(n)
    ensures FromBe(BeBytes(v, n)) == v
  {
    if n > 0 {
      var bs := BeBytes(v, n);
      assert bs[..n - 1] == BeBytes(v / 256, n - 1);
      BeRoundTrip(v / 256, n - 1);
    }
  }

  /** Appending one byte compares like a two-digit number. */
  lemma {:induction false} LessSnoc(a: seq<byte>, b: seq<byte>, x: byte, y: byte)
    requires |a| == |b|
    ensures Less(a + [x], b + [y]) <==> Less(a, b) || (a == b && x < y)
  {
    if a == [] {
      assert a + [x] == [x] && b + [y] == [y];
    } else {
      assert (a + [x])[1..] == a[1..] + [x] && (b + [y])[1..] == b[1..] + [y];
      LessSnoc(a[1..], b[1..], x, y);
      assert a == [a[0]] + a[1..] && b == [b[0]] + b[1..];
    }
  }

  /** Byte order of big-endian integers is numeric order. */
  lemma {:induction false} BeOrder(v: nat, w: nat, n: nat)
    requires v < Pow256(n) && w < Pow256(n)
    ensures Less(BeBytes(v, n), BeBytes(w, n)) <==> v < w
  {
    if n > 0 {
      BeOrder(v / 256, w / 256, n - 1);
      LessSnoc(BeBytes(v / 256, n - 1), BeBytes(w / 256, n - 1), v % 256, w % 256);
      if BeBytes(v / 256, n - 1) == BeBytes(w / 256, n - 1) {
        BeRoundTrip(v / 256, n - 1);
        BeRoundTrip(w / 256, n - 1);
      }
    }
  }

  /** Different bytes after equal-length fields keep the field's verdict. */
  lemma {:induction false} LessSameLength(a: seq<byte>, b: seq<byte>, x: seq<byte>, y: seq<byte>)
    requires |a| == |b| && a != b
    ensures Less(a + x, b + y) <==> Less(a, b)
  {
    assert a != [];
    if a[0] == b[0] {
      assert (a + x)[1..] == a[1..] + x && (b + y)[1..] == b[1..] + y;
      assert a == [a[0]] + a[1..] && b == [b[0]] + b[1..];
      LessSameLength(a[1..], b[1..], x, y);
    }
  }

  // -------------------------------------------------------------------- UTF-8

  predicate Tail(b: byte) { 0x80 <= b <= 0xBF }

  /** Length of the well-formed character at the front of s, or 0
      (section 4 of RFC 3629). */
  function CharLen(s: seq<byte>): (n: nat)
    ensures n <= |s| && n <= 4
  {
    if s == [] then 0
    else if s[0] <= 0x7F then 1
    else if |s| >= 2 && 0xC2 <= s[0] <= 0xDF && Tail(s[1]) then 2
    else if |s| >= 3 && 0xE0 <= s[0] <= 0xEF && Tail(s[1]) && Tail(s[2])
            && (s[0] == 0xE0 ==> s[1] >= 0xA0) && (s[0] == 0xED ==> s[1] <= 0x9F) then 3
    else if |s| >= 4 && 0xF0 <= s[0] <= 0xF4 && Tail(s[1]) && Tail(s[2]) && Tail(s[3])
            && (s[0] == 0xF0 ==> s[1] >= 0x90) && (s[0] == 0xF4 ==> s[1] <= 0x8F) then 4
    else 0
  }

  predicate ValidUtf8(s: seq<byte>)
    decreases |s|
  {
    s == [] || (var n := CharLen(s); n > 0 && ValidUtf8(s[n..]))
  }

  /** A UTF-8 string, held as its bytes. */
  type Utf8 = s: seq<byte> | ValidUtf8(s)

  /** Why 0xFF can separate records: no UTF-8 string contains it. */
  lemma {:induction false} Utf8HasNoSep(s: seq<byte>)
    requires ValidUtf8(s)
    ensures SEP !in s
    decreases |s|
  {
    if s != [] {
      var n := CharLen(s);
      Utf8HasNoSep(s[n..]);
      assert s == s[..n] + s[n..];
    }
  }

  lemma {:induction false} Utf8Concat(s: seq<byte>, t: seq<byte>)
    requires ValidUtf8(s) && ValidUtf8(t)
    ensures ValidUtf8(s + t)
    decreases |s|
  {
    if s == [] {
      assert s + t == t;
    } else {
      var n := CharLen(s);
      assert CharLen(s + t) == n;
      assert (s + t)[n..] == s[n..] + t;
      Utf8Concat(s[n..], t);
    }
  }
}
