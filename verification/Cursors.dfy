/** Database cursors over a sorted snapshot, and the prefix scans built on them. */
module Cursors {
  import Common
  import opened Bytes
  import opened Codec
  import KeyWriter

  datatype Row = Row(key: seq<byte>, val: seq<byte>)

  predicate Ordered(rows: seq<Row>) {
    forall i, j :: 0 <= i < j < |rows| ==> Less(rows[i].key, rows[j].key)
  }

  /** The rows whose key extends p, in table order. */
  function WithPrefix(rows: seq<Row>, p: seq<byte>): seq<Row> {
    if rows == [] then []
    else (if p <= rows[0].key then [rows[0]] else []) + WithPrefix(rows[1..], p)
  }

  /** The rows whose tuple begins with the components ps, in table order. */
  function WithComponents(rows: seq<Row>, tuples: seq<seq<Value>>, ps: seq<Value>): seq<Row>
    requires |rows| == |tuples|
  {
    if rows == [] then []
    else (if ps <= tuples[0] then [rows[0]] else []) + WithComponents(rows[1..], tuples[1..], ps)
  }

  function Reversed(rows: seq<Row>): seq<Row> {
    if rows == [] then [] else Reversed(rows[1..]) + [rows[0]]
  }

  /** Iterator position: an index, or nowhere. */
  const NOWHERE := -1

  class State {
    const rows: seq<Row>
    var at: int
    var seek: bool
    var init: bool

    ghost predicate Valid()
      reads this
    {
      Ordered(rows) && NOWHERE <= at < |rows|
    }

    constructor (table: seq<Row>)
      requires Ordered(table)
      ensures Valid() && rows == table && at == NOWHERE && init && !seek
    {
      rows := table;
      at, seek, init := NOWHERE, false, true;
    }

    /** Place the iterator on the first key not below the target. */
    method SeekKey(key: seq<byte>)
      requires Valid()
      modifies this`at
      ensures Valid()
      ensures at == NOWHERE ==> forall i :: 0 <= i < |rows| ==> Less(rows[i].key, key)
      ensures at != NOWHERE ==> LessEq(key, rows[at].key) && forall i :: 0 <= i < at ==> Less(rows[i].key, key)
    {
      var i := 0;
      while i < |rows| && Less(rows[i].key, key)
        invariant 0 <= i <= |rows|
        invariant forall j :: 0 <= j < i ==> Less(rows[j].key, key)
      {
        i := i + 1;
      }
      if i < |rows| {
        LessTotal(rows[i].key, key);
        at := i;
      } else {
        at := NOWHERE;
      }
    }

    /** Place the iterator on the last key not above the target. */
    method SeekForPrev(key: seq<byte>)
      requires Valid()
      modifies this`at
      ensures Valid()
      ensures forall i :: 0 <= i <= at ==> LessEq(rows[i].key, key)
      ensures forall i :: at < i < |rows| ==> Less(key, rows[i].key)
    {
      var i := |rows| - 1;
      while i >= 0 && Less(key, rows[i].key)
        invariant -1 <= i < |rows|
        invariant forall j :: i < j < |rows| ==> Less(key, rows[j].key)
      {
        i := i - 1;
      }
      if i >= 0 {
        LessTotal(rows[i].key, key);
        forall j | 0 <= j < i ensures LessEq(rows[j].key, key) {
          if rows[i].key != key {
            LessTransitive(rows[j].key, rows[i].key, key);
          }
        }
      }
      at := i;
    }

    method InitFwd(from: Common.Option<seq<byte>>)
      requires Valid() && init && !seek
      modifies this`at, this`seek
      ensures Valid() && seek
      ensures from.None? ==> at == if |rows| > 0 then 0 else NOWHERE
      ensures from.Some? && at == NOWHERE ==>
                forall i :: 0 <= i < |rows| ==> Less(rows[i].key, from.value)
      ensures from.Some? && at != NOWHERE ==>
                LessEq(from.value, rows[at].key) && forall i :: 0 <= i < at ==> Less(rows[i].key, from.value)
    {
      match from {
        case Some(key) => SeekKey(key);
        case None => at := if |rows| > 0 then 0 else NOWHERE;
      }
      seek := true;
    }

    method InitRev(from: Common.Option<seq<byte>>)
      requires Valid() && init && !seek
      modifies this`at, this`seek
      ensures Valid() && seek
      ensures from.None? ==> at == |rows| - 1
      ensures from.Some? ==> forall i :: 0 <= i <= at ==> LessEq(rows[i].key, from.value)
      ensures from.Some? ==> forall i :: at < i < |rows| ==> Less(from.value, rows[i].key)
    {
      match from {
        case Some(key) => SeekForPrev(key);
        case None => at := |rows| - 1;
      }
      seek := true;
    }

    /** Advance, except that the first call of an initialised cursor stays put
        and the first call of a fresh one goes to the first row. */
    method SeekFwd()
      requires Valid()
      modifies this`at, this`init
      ensures Valid() && !init
      ensures at ==
        if old(init) then (if seek then old(at) else if |rows| > 0 then 0 else NOWHERE)
        else if old(at) != NOWHERE && old(at) + 1 < |rows| then old(at) + 1 else NOWHERE
    {
      var was := init;
      init := false;
      if !was {
        at := if at != NOWHERE && at + 1 < |rows| then at + 1 else NOWHERE;
      } else if !seek {
        at := if |rows| > 0 then 0 else NOWHERE;
      }
    }

    method SeekRev()
      requires Valid()
      modifies this`at, this`init
      ensures Valid() && !init
      ensures at ==
        if old(init) then (if seek then old(at) else |rows| - 1)
        else if old(at) != NOWHERE then old(at) - 1 else NOWHERE
    {
      var was := init;
      init := false;
      if !was {
        at := if at != NOWHERE then at - 1 else NOWHERE;
      } else if !seek {
        at := |rows| - 1;
      }
    }

    function Fetch(): (r: Common.Option<Row>)
      requires Valid()
      reads this
      ensures r.Some? <==> at != NOWHERE
    {
      if at == NOWHERE then Common.None else Common.Some(rows[at])
    }
  }

  lemma {:induction false} WithPrefixNone(rows: seq<Row>, p: seq<byte>)
    requires forall i :: 0 <= i < |rows| ==> !(p <= rows[i].key)
    ensures WithPrefix(rows, p) == []
  {
    if rows != [] {
      WithPrefixNone(rows[1..], p);
    }
  }

  lemma {:induction false} WithPrefixAll(rows: seq<Row>, p: seq<byte>)
    requires forall i :: 0 <= i < |rows| ==> p <= rows[i].key
    ensures WithPrefix(rows, p) == rows
  {
    if rows != [] {
      WithPrefixAll(rows[1..], p);
      assert rows == [rows[0]] + rows[1..];
    }
  }

  lemma Associate(a: seq<Row>, b: seq<Row>, c: seq<Row>)
    ensures a + (b + c) == (a + b) + c
  {}

  lemma {:induction false} WithPrefixSplit(rows: seq<Row>, n: nat, p: seq<byte>)
    requires n <= |rows|
    ensures WithPrefix(rows, p) == WithPrefix(rows[..n], p) + WithPrefix(rows[n..], p)
  {
    if n == 0 {
      assert rows[0..] == rows && rows[..0] == [];
    } else {
      WithPrefixSplit(rows[1..], n - 1, p);
      assert rows[1..][..n - 1] == rows[..n][1..];
      assert rows[1..][n - 1..] == rows[n..];
      assert rows[..n][0] == rows[0];
      Associate(if p <= rows[0].key then [rows[0]] else [],
                WithPrefix(rows[..n][1..], p), WithPrefix(rows[n..], p));
    }
  }

  /** The matching rows form one block. */
  lemma WithPrefixBlock(rows: seq<Row>, p: seq<byte>, lo: nat, hi: nat)
    requires lo <= hi <= |rows|
    requires forall i :: 0 <= i < |rows| ==> (p <= rows[i].key <==> lo <= i < hi)
    ensures WithPrefix(rows, p) == rows[lo..hi]
  {
    WithPrefixSplit(rows, hi, p);
    WithPrefixSplit(rows[..hi], lo, p);
    WithPrefixNone(rows[hi..], p);
    WithPrefixNone(rows[..hi][..lo], p);
    WithPrefixAll(rows[..hi][lo..], p);
    assert rows[..hi][lo..] == rows[lo..hi];
  }

  lemma BelowIsNotExtension(p: seq<byte>, k: seq<byte>)
    requires Less(k, p)
    ensures !(p <= k)
  {
    if p <= k {
      PrefixIsLeast(p, k);
      if p != k {
        LessTransitive(k, p, k);
      }
      LessIrreflexive(k);
    }
  }

  /** Everything before the first key not below p misses the prefix, everything
      from there on is not below it. */
  lemma AroundStart(rows: seq<Row>, p: seq<byte>, lo: nat)
    requires Ordered(rows) && lo <= |rows|
    requires forall i :: 0 <= i < lo ==> Less(rows[i].key, p)
    requires lo < |rows| ==> LessEq(p, rows[lo].key)
    ensures forall i :: 0 <= i < lo ==> !(p <= rows[i].key)
    ensures forall i :: lo <= i < |rows| ==> LessEq(p, rows[i].key)
  {
    hide Less;
    forall i | 0 <= i < lo ensures !(p <= rows[i].key) {
      BelowIsNotExtension(p, rows[i].key);
    }
    forall i | lo <= i < |rows| ensures LessEq(p, rows[i].key) {
      if i > lo && p != rows[lo].key {
        LessTransitive(p, rows[lo].key, rows[i].key);
      }
    }
  }

  /** After one foreign key at or above p, no later key has the prefix. */
  lemma AfterStop(rows: seq<Row>, p: seq<byte>, hi: nat)
    requires Ordered(rows) && hi <= |rows|
    requires hi < |rows| ==> LessEq(p, rows[hi].key) && !(p <= rows[hi].key)
    ensures forall i :: hi <= i < |rows| ==> !(p <= rows[i].key)
  {
    hide Less;
    forall i | hi <= i < |rows| ensures !(p <= rows[i].key) {
      if p <= rows[i].key && i > hi {
        PrefixIsConvex(p, rows[hi].key, rows[i].key);
      }
    }
  }

  /** A cursor started at a prefix and stopped at the first foreign key emits
      exactly the rows that extend the prefix, once each and in order. */
  method StreamPrefix(table: seq<Row>, prefix: seq<byte>) returns (out: seq<Row>)
    requires Ordered(table)
    ensures out == WithPrefix(table, prefix)
  {
    hide Less, WithPrefix;
    var cur := new State(table);
    cur.InitFwd(Common.Some(prefix));
    ghost var lo := if cur.at == NOWHERE then |table| else cur.at;
    AroundStart(table, prefix, lo);
    out := [];
    cur.SeekFwd();
    while cur.Fetch().Some? && prefix <= cur.Fetch().value.key
      invariant cur.Valid() && cur.rows == table && !cur.init
      invariant cur.at == if lo + |out| < |table| then lo + |out| else NOWHERE
      invariant lo + |out| <= |table| && out == table[lo..lo + |out|]
      invariant forall i :: lo <= i < lo + |out| ==> prefix <= table[i].key
      decreases |table| - |out|
    {
      out := out + [cur.Fetch().value];
      cur.SeekFwd();
    }
    AfterStop(table, prefix, lo + |out|);
    WithPrefixBlock(table, prefix, lo, lo + |out|);
  }

  lemma {:induction false} SameSelection(rows: seq<Row>, tuples: seq<seq<Value>>, ps: seq<Value>, p: seq<byte>)
    requires |rows| == |tuples|
    requires forall i :: 0 <= i < |rows| ==> (p <= rows[i].key <==> ps <= tuples[i])
    ensures WithPrefix(rows, p) == WithComponents(rows, tuples, ps)
  {
    if rows != [] {
      SameSelection(rows[1..], tuples[1..], ps, p);
    }
  }

  /** The rows are the written forms of tuples of one type. */
  ghost predicate Holds(table: seq<Row>, ts: seq<Ty>, tuples: seq<seq<Value>>) {
    && |table| == |tuples|
    && forall i :: 0 <= i < |table| ==>
         table[i].key == Encode(tuples[i]) && Typed(tuples[i], ts) && RoundTrips(tuples[i])
  }

  lemma ScanMatches(table: seq<Row>, ts: seq<Ty>, tuples: seq<seq<Value>>, ps: seq<Value>)
    requires Holds(table, ts, tuples)
    requires |ps| < |ts| && Typed(ps, ts[..|ps|])
    requires forall j :: 0 <= j < |ps| ==> Faithful(ps[j], false)
    ensures forall i :: 0 <= i < |table| ==> (PrefixKey(ps) <= table[i].key <==> ps <= tuples[i])
  {
    forall i | 0 <= i < |table| ensures PrefixKey(ps) <= table[i].key <==> ps <= tuples[i] {
      hide Faithful, HasType, Encode, EncValue, PrefixKey;
      PrefixExact(ts, ps, tuples[i]);
    }
  }

  /** Scanning a table of tuples of one type by its leading components gives
      exactly the rows that have those components. */
  method StreamComponents(table: seq<Row>, ghost ts: seq<Ty>, ghost tuples: seq<seq<Value>>, ps: seq<Value>)
    returns (out: seq<Row>)
    requires Ordered(table) && Holds(table, ts, tuples)
    requires |ps| < |ts| && Typed(ps, ts[..|ps|])
    requires forall j :: 0 <= j < |ps| ==> Faithful(ps[j], false)
    ensures out == WithComponents(table, tuples, ps)
  {
    hide Faithful, HasType, Encode, EncValue, KeyWriter.Written, Less;
    var w := new KeyWriter.Serializer();
    KeyWriter.InterfixIsPrefixKey(ps);
    w.SerializeTuple(KeyWriter.Vals(ps) + [KeyWriter.Interfix]);
    var key := w.out;
    ScanMatches(table, ts, tuples, ps);
    SameSelection(table, tuples, ps, key);
    out := StreamPrefix(table, key);
  }

  lemma {:induction false} ReversedSnoc(rows: seq<Row>, r: Row)
    ensures Reversed(rows + [r]) == [r] + Reversed(rows)
  {
    if rows == [] {
      assert rows + [r] == [r];
    } else {
      assert (rows + [r])[1..] == rows[1..] + [r];
      ReversedSnoc(rows[1..], r);
    }
  }

  /** A backward cursor emits the rows not above its start, newest key first. */
  method StreamRev(table: seq<Row>, from: Common.Option<seq<byte>>) returns (out: seq<Row>, ghost n: nat)
    requires Ordered(table)
    ensures n <= |table| && out == Reversed(table[..n])
    ensures from.None? ==> n == |table|
    ensures from.Some? ==> forall i :: 0 <= i < |table| ==> (LessEq(table[i].key, from.value) <==> i < n)
  {
    var cur := new State(table);
    cur.InitRev(from);
    n := cur.at + 1;
    if from.Some? {
      forall i | n <= i < |table| ensures !LessEq(table[i].key, from.value) {
        LessIrreflexive(from.value);
        if Less(table[i].key, from.value) {
          LessTransitive(from.value, table[i].key, from.value);
        }
      }
    }
    out := [];
    cur.SeekRev();
    while cur.Fetch().Some?
      invariant cur.Valid() && cur.rows == table && !cur.init
      invariant -1 <= cur.at < n
      invariant out + Reversed(table[..cur.at + 1]) == Reversed(table[..n])
      decreases cur.at
    {
      var k := cur.at;
      assert table[..k + 1] == table[..k] + [table[k]];
      ReversedSnoc(table[..k], table[k]);
      assert out + Reversed(table[..k + 1]) == (out + [table[k]]) + Reversed(table[..k]);
      out := out + [cur.Fetch().value];
      cur.SeekRev();
    }
    assert out + [] == out;
  }
}
