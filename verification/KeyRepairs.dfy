/** Key repairs among the database migrations. A repair walks a snapshot of a
    table in key order and issues writes one by one; a cut after any number of
    writes models a process that dies in the middle. */
module KeyRepairs {
  import opened Bytes
  import opened Codec

  type Key = seq<byte>

  const DOLLAR: byte := 0x24

  /** A table whose values are empty: only its keys matter. */
  class KeyTable {
    var rows: set<Key>

    constructor (keys: set<Key>)
      ensures rows == keys
    {
      rows := keys;
    }

    method Put(k: Key)
      modifies this
      ensures rows == old(rows) + {k}
    {
      rows := rows + {k};
    }

    method Remove(k: Key)
      modifies this
      ensures rows == old(rows) - {k}
    {
      rows := rows - {k};
    }
  }

  datatype Write = Put(key: Key) | Del(key: Key)

  function Apply(rows: set<Key>, ws: seq<Write>): set<Key>
    decreases |ws|
  {
    if ws == [] then rows
    else Apply(if ws[0].Put? then rows + {ws[0].key} else rows - {ws[0].key}, ws[1..])
  }

  lemma {:induction false} ApplyConcat(rows: set<Key>, a: seq<Write>, b: seq<Write>)
    ensures Apply(rows, a + b) == Apply(Apply(rows, a), b)
    decreases |a|
  {
    if a == [] {
      assert a + b == b;
    } else {
      assert (a + b)[1..] == a[1..] + b;
      ApplyConcat(if a[0].Put? then rows + {a[0].key} else rows - {a[0].key}, a[1..], b);
    }
  }

  // ------------------------------------- referencedevents: a missing separator

  /** Position of the first dollar sign, or the length. */
  function FindDollar(k: Key): (n: nat)
    ensures n <= |k|
    ensures DOLLAR !in k[..n]
    ensures n < |k| ==> k[n] == DOLLAR
  {
    if k == [] || k[0] == DOLLAR then 0
    else
      var n := FindDollar(k[1..]);
      assert k[..n + 1] == [k[0]] + k[1..][..n];
      n + 1
  }

  /** A key the repair can handle; on any other it panics. */
  predicate Repairable(k: Key) {
    SEP in k || (ValidUtf8(k) && DOLLAR in k)
  }

  /** The repaired form: the separator goes in front of the event id. */
  function Fixed(k: Key): Key {
    if SEP in k then k else k[..FindDollar(k)] + [SEP] + k[FindDollar(k)..]
  }

  function KeyWrites(k: Key): seq<Write> {
    if SEP in k then [] else [Put(Fixed(k)), Del(k)]
  }

  /** All writes of an uninterrupted pass over a snapshot. */
  function Writes(ks: seq<Key>): seq<Write> {
    if ks == [] || !Repairable(ks[0]) then [] else KeyWrites(ks[0]) + Writes(ks[1..])
  }

  /** What the repair is for: every key in its separated form. */
  function Repaired(rows: set<Key>): set<Key> {
    set k | k in rows :: Fixed(k)
  }

  function BadCount(ks: seq<Key>): nat {
    if ks == [] then 0 else BadCount(ks[..|ks| - 1]) + (if SEP in ks[|ks| - 1] then 0 else 1)
  }

  lemma FixedHasSep(k: Key)
    ensures SEP in Fixed(k) && Fixed(Fixed(k)) == Fixed(k)
  {
    if SEP !in k {
      assert Fixed(k)[FindDollar(k)] == SEP;
    }
  }

  /** Adding the repaired form of a key that is there changes no meaning. */
  lemma PutKeeps(rows: set<Key>, k: Key)
    requires k in rows
    ensures Repaired(rows + {Fixed(k)}) == Repaired(rows)
  {
    FixedHasSep(k);
    assert Fixed(k) in Repaired(rows);
    forall x | x in Repaired(rows) ensures x in Repaired(rows + {Fixed(k)}) {
      var y :| y in rows && Fixed(y) == x;
      assert y in rows + {Fixed(k)};
    }
  }

  /** Dropping a key whose repaired form is there changes no meaning. */
  lemma DelKeeps(rows: set<Key>, k: Key)
    requires SEP !in k && Fixed(k) in rows
    ensures Repaired(rows - {k}) == Repaired(rows)
  {
    FixedHasSep(k);
    forall x | x in Repaired(rows) ensures x in Repaired(rows - {k}) {
      var y :| y in rows && Fixed(y) == x;
      if y == k {
        assert Fixed(k) in rows - {k} && Fixed(Fixed(k)) == x;
      } else {
        assert y in rows - {k};
      }
    }
  }

  /** The snapshot keys not reached yet are still in the table. */
  predicate Ahead(rows: set<Key>, ks: seq<Key>) {
    (forall i :: 0 <= i < |ks| ==> ks[i] in rows) && (forall i, j :: 0 <= i < j < |ks| ==> ks[i] != ks[j])
  }

  /** Cutting the pass after any number of writes changes no meaning. */
  lemma {:induction false} CutKeepsMeaning(rows: set<Key>, ks: seq<Key>, n: nat)
    requires Ahead(rows, ks) && n <= |Writes(ks)|
    ensures Repaired(Apply(rows, Writes(ks)[..n])) == Repaired(rows)
    decreases |ks|
  {
    if ks == [] || !Repairable(ks[0]) || n == 0 {
      assert Writes(ks)[..n] == [];
    } else if SEP in ks[0] {
      assert Writes(ks) == Writes(ks[1..]);
      CutKeepsMeaning(rows, ks[1..], n);
    } else {
      var k := ks[0];
      var ws := Writes(ks);
      assert ws == [Put(Fixed(k)), Del(k)] + Writes(ks[1..]);
      PutKeeps(rows, k);
      var rows1 := rows + {Fixed(k)};
      if n == 1 {
        assert ws[..1] == [Put(Fixed(k))];
        assert ws[..1][1..] == [];
      } else {
        FixedHasSep(k);
        DelKeeps(rows1, k);
        var rows2 := rows1 - {k};
        CutKeepsMeaning(rows2, ks[1..], n - 2);
        assert ws[..n] == [Put(Fixed(k)), Del(k)] + Writes(ks[1..])[..n - 2];
        TwoWrites(rows, k, Writes(ks[1..])[..n - 2]);
      }
    }
  }

  lemma TwoWrites(rows: set<Key>, k: Key, ws: seq<Write>)
    ensures Apply(rows, [Put(Fixed(k)), Del(k)] + ws) == Apply(rows + {Fixed(k)} - {k}, ws)
  {
    var all := [Put(Fixed(k)), Del(k)] + ws;
    assert all[1..] == [Del(k)] + ws;
    assert all[1..][1..] == ws;
  }

  /** A pass that meets no unrepairable key ends with exactly the repaired keys. */
  lemma {:induction false} FullPass(rows: set<Key>, ks: seq<Key>)
    requires Ahead(rows, ks) && forall i :: 0 <= i < |ks| ==> Repairable(ks[i])
    requires forall k :: k in rows && k !in ks ==> SEP in k
    ensures Apply(rows, Writes(ks)) == Repaired(rows)
    decreases |ks|
  {
    if ks == [] {
      assert forall k :: k in rows ==> Fixed(k) == k;
      assert Repaired(rows) == rows;
    } else {
      var k := ks[0];
      assert forall x :: x in ks ==> x == k || x in ks[1..];
      if SEP in k {
        FullPass(rows, ks[1..]);
        assert Writes(ks) == Writes(ks[1..]);
      } else {
        FixedHasSep(k);
        PutKeeps(rows, k);
        var rows1 := rows + {Fixed(k)};
        DelKeeps(rows1, k);
        FullPass(rows1 - {k}, ks[1..]);
        TwoWrites(rows, k, Writes(ks[1..]));
      }
    }
  }

  /** A listing of the table, as a cursor gives it. */
  predicate Lists(ks: seq<Key>, rows: set<Key>) {
    Ahead(rows, ks) && forall k :: k in rows ==> k in ks
  }

  lemma ListsAhead(ks: seq<Key>, rows: set<Key>)
    requires Lists(ks, rows)
    ensures Ahead(rows, ks)
  {}

  /** A pass over a listing of one table, cut after n writes, leaves the other. */
  ghost predicate CutPass(before: set<Key>, ks: seq<Key>, n: nat, after: set<Key>) {
    Lists(ks, before) && n <= |Writes(ks)| && after == Apply(before, Writes(ks)[..n])
  }

  ghost predicate CanLeave(before: set<Key>, after: set<Key>) {
    exists ks, n: nat :: CutPass(before, ks, n, after)
  }

  /** The tables after each of a number of interrupted passes. */
  ghost predicate Interrupted(tables: seq<set<Key>>) {
    tables != [] && forall i :: 0 <= i < |tables| - 1 ==> CanLeave(tables[i], tables[i + 1])
  }

  lemma {:induction false} InterruptionsKeepMeaning(tables: seq<set<Key>>)
    requires Interrupted(tables)
    ensures Repaired(tables[|tables| - 1]) == Repaired(tables[0])
    decreases |tables|
  {
    var n := |tables| - 1;
    if n > 0 {
      InterruptionsKeepMeaning(tables[..n]);
      assert CanLeave(tables[n - 1], tables[n - 1 + 1]);
      var ks, cut: nat :| CutPass(tables[n - 1], ks, cut, tables[n]);
      ListsAhead(ks, tables[n - 1]);
      CutKeepsMeaning(tables[n - 1], ks, cut);
    }
  }

  /** However often it is cut, a completed pass gives the table that one
      uninterrupted pass would have given. */
  lemma InterruptedRepairConverges(tables: seq<set<Key>>, ks: seq<Key>)
    requires Interrupted(tables) && Lists(ks, tables[|tables| - 1])
    requires forall k :: k in tables[|tables| - 1] ==> Repairable(k)
    ensures Apply(tables[|tables| - 1], Writes(ks)) == Repaired(tables[0])
  {
    InterruptionsKeepMeaning(tables);
    FullPass(tables[|tables| - 1], ks);
  }

  lemma ListingLists(rows: set<Key>)
    ensures Lists(Listing(rows), rows)
  {
    var ks := Listing(rows);
    hide Less;
    forall i, j | 0 <= i < j < |ks|
      ensures ks[i] != ks[j]
    {
      SortedIsDistinct(ks, i, j);
    }
    forall i | 0 <= i < |ks|
      ensures ks[i] in rows
    {
      assert ks[i] in ks;
    }
  }

  predicate AllRepairable(rows: set<Key>) {
    forall k :: k in rows ==> Repairable(k)
  }

  /** The pass only ever adds keys with a separator. */
  lemma {:induction false} CutIsRepairable(rows: set<Key>, ks: seq<Key>, n: nat)
    requires AllRepairable(rows) && n <= |Writes(ks)|
    ensures AllRepairable(Apply(rows, Writes(ks)[..n]))
  {
    hide Repairable;
    AddsRepairable(ks);
    KeepsRepairable(rows, Writes(ks)[..n]);
  }

  /** A whole pass over a listing of repairable keys ends with the repaired ones. */
  lemma WholePass(rows: set<Key>, ks: seq<Key>)
    requires Lists(ks, rows) && AllRepairable(rows)
    ensures Apply(rows, Writes(ks)) == Repaired(rows)
  {
    hide Repairable, Repaired, Writes, Apply;
    FullPass(rows, ks);
  }

  lemma RepairableListing(rows: set<Key>, ks: seq<Key>)
    requires Lists(ks, rows)
    ensures AllRepairable(rows) <==> forall i :: 0 <= i < |ks| ==> Repairable(ks[i])
  {
    hide Repairable;
  }

  predicate PutsRepairable(ws: seq<Write>) {
    forall i :: 0 <= i < |ws| && ws[i].Put? ==> Repairable(ws[i].key)
  }

  lemma {:induction false} AddsRepairable(ks: seq<Key>)
    ensures PutsRepairable(Writes(ks))
  {
    if ks != [] && Repairable(ks[0]) {
      FixedHasSep(ks[0]);
      AddsRepairable(ks[1..]);
    }
  }

  lemma {:induction false} KeepsRepairable(rows: set<Key>, ws: seq<Write>)
    requires AllRepairable(rows) && PutsRepairable(ws)
    ensures AllRepairable(Apply(rows, ws))
    decreases |ws|
  {
    hide Repairable;
    if ws != [] {
      KeepsRepairable(if ws[0].Put? then rows + {ws[0].key} else rows - {ws[0].key}, ws[1..]);
    }
  }

  predicate DelsRepairable(ws: seq<Write>) {
    forall i :: 0 <= i < |ws| && ws[i].Del? ==> Repairable(ws[i].key)
  }

  lemma {:induction false} DeletesRepairable(ks: seq<Key>)
    ensures DelsRepairable(Writes(ks))
  {
    hide Repairable;
    if ks != [] && Repairable(ks[0]) {
      DeletesRepairable(ks[1..]);
    }
  }

  lemma {:induction false} KeepsUnrepairable(rows: set<Key>, ws: seq<Write>)
    requires !AllRepairable(rows) && DelsRepairable(ws)
    ensures !AllRepairable(Apply(rows, ws))
    decreases |ws|
  {
    hide Repairable;
    if ws != [] {
      var k :| k in rows && !Repairable(k);
      var next := if ws[0].Put? then rows + {ws[0].key} else rows - {ws[0].key};
      assert k in next;
      KeepsUnrepairable(next, ws[1..]);
    }
  }

  /** A key the pass panics on is never deleted. */
  lemma PanicStays(rows: set<Key>, ks: seq<Key>, n: nat)
    requires !AllRepairable(rows) && n <= |Writes(ks)|
    ensures !AllRepairable(Apply(rows, Writes(ks)[..n]))
  {
    hide Repairable, Writes, Apply;
    DeletesRepairable(ks);
    KeepsUnrepairable(rows, Writes(ks)[..n]);
  }

  lemma RepairedIsSettled(rows: set<Key>)
    ensures Repaired(Repaired(rows)) == Repaired(rows)
  {
    forall k | k in Repaired(rows)
      ensures Fixed(k) == k
    {
      var j :| j in rows && Fixed(j) == k;
      FixedHasSep(j);
    }
  }

  // ----------------------------------------------- what the repaired keys mean

  /** A room and an event of it. */
  datatype Pair = Pair(room: Utf8, event: Utf8)

  predicate WfPair(p: Pair) {
    DOLLAR !in p.room && p.event != [] && p.event[0] == DOLLAR
  }

  function Tuple(p: Pair): seq<Value> {
    [Just(VStr(p.room)), Just(VStr(p.event))]
  }

  const PAIR_TYPE := [Plain(Str), Plain(Str)]

  function GoodKey(p: Pair): Key {
    Encode(Tuple(p))
  }

  /** The key as the old bug wrote it. */
  function BadKey(p: Pair): Key {
    p.room + p.event
  }

  lemma GoodKeyIs(p: Pair)
    ensures GoodKey(p) == p.room + [SEP] + p.event
  {
    var one := [Just(VStr(p.event))];
    assert Tuple(p)[1..] == one;
    assert Encode(one) == p.event;
  }

  lemma {:induction false} FindDollarAt(room: seq<byte>, event: seq<byte>)
    requires DOLLAR !in room && event != [] && event[0] == DOLLAR
    ensures FindDollar(room + event) == |room|
  {
    if room == [] {
      assert room + event == event;
    } else {
      assert (room + event)[1..] == room[1..] + event;
      FindDollarAt(room[1..], event);
    }
  }

  /** The repair puts the separator where the two ids meet. */
  lemma BadKeyFixed(p: Pair)
    requires WfPair(p)
    ensures Repairable(BadKey(p)) && SEP !in BadKey(p) && Fixed(BadKey(p)) == GoodKey(p)
  {
    Utf8HasNoSep(p.room);
    Utf8HasNoSep(p.event);
    Utf8Concat(p.room, p.event);
    FindDollarAt(p.room, p.event);
    var k := BadKey(p);
    assert k[|p.room|] == DOLLAR;
    assert k[..|p.room|] == p.room && k[|p.room|..] == p.event;
    GoodKeyIs(p);
  }

  lemma GoodKeyFixed(p: Pair)
    ensures SEP in GoodKey(p) && Fixed(GoodKey(p)) == GoodKey(p)
  {
    GoodKeyIs(p);
    assert GoodKey(p)[|p.room|] == SEP;
  }

  /** A table of room and event pairs, each written in the old or the new form. */
  ghost predicate HoldsPairs(rows: set<Key>) {
    forall k :: k in rows ==> exists p :: WfPair(p) && (k == GoodKey(p) || k == BadKey(p))
  }

  lemma SamePair(p: Pair, r: Pair)
    requires GoodKey(p) == GoodKey(r)
    ensures p == r
  {
    PairRoundTrips(p);
    PairRoundTrips(r);
    EncodeInjective(PAIR_TYPE, Tuple(p), Tuple(r));
    assert Tuple(p)[0] == Tuple(r)[0] && Tuple(p)[1] == Tuple(r)[1];
  }

  /** The repair keeps the set of pairs, and every key then reads as its pair. */
  lemma RepairKeepsPairs(rows: set<Key>, p: Pair)
    requires HoldsPairs(rows) && WfPair(p)
    ensures GoodKey(p) in Repaired(rows) <==> GoodKey(p) in rows || BadKey(p) in rows
    ensures Decode(Gets(PAIR_TYPE), GoodKey(p)) == Done(Gots(Tuple(p)))
  {
    hide GoodKey, BadKey, Fixed, WfPair, Repairable, Decode;
    BadKeyFixed(p);
    GoodKeyFixed(p);
    assert GoodKey(p) in rows ==> Fixed(GoodKey(p)) in Repaired(rows);
    assert BadKey(p) in rows ==> Fixed(BadKey(p)) in Repaired(rows);
    PairRoundTrips(p);
    if GoodKey(p) in Repaired(rows) {
      var k :| k in rows && Fixed(k) == GoodKey(p);
      var r :| WfPair(r) && (k == GoodKey(r) || k == BadKey(r));
      BadKeyFixed(r);
      GoodKeyFixed(r);
      SamePair(p, r);
    }
  }

  lemma PairRoundTrips(p: Pair)
    ensures Typed(Tuple(p), PAIR_TYPE) && RoundTrips(Tuple(p))
    ensures Decode(Gets(PAIR_TYPE), GoodKey(p)) == Done(Gots(Tuple(p)))
  {
    RoundTrip(PAIR_TYPE, Tuple(p));
  }

  /** No repaired key is anything but a pair's key. */
  lemma RepairedArePairs(rows: set<Key>, k: Key)
    requires HoldsPairs(rows) && k in Repaired(rows)
    ensures exists p :: WfPair(p) && k == GoodKey(p)
  {
    var j :| j in rows && Fixed(j) == k;
    var p :| WfPair(p) && (j == GoodKey(p) || j == BadKey(p));
    BadKeyFixed(p);
    GoodKeyFixed(p);
  }

  // ------------------------------------------------------------------ the loop

  /** The first n writes of a pass, all of them if there are fewer. */
  function FirstWrites(ks: seq<Key>, n: nat): seq<Write> {
    Writes(ks)[..if n < |Writes(ks)| then n else |Writes(ks)|]
  }

  /** Where the pass stands before key i: `done` is written, the rest follows. */
  ghost predicate Progress(ks: seq<Key>, i: nat, done: seq<Write>)
    requires i <= |ks|
  {
    && Writes(ks) == done + Writes(ks[i..])
    && (forall j :: 0 <= j < i ==> Repairable(ks[j]))
  }

  lemma ProgressStep(ks: seq<Key>, i: nat, done: seq<Write>)
    requires i < |ks| && Progress(ks, i, done) && Repairable(ks[i])
    ensures Progress(ks, i + 1, done + KeyWrites(ks[i]))
  {
    assert ks[i..][0] == ks[i] && ks[i..][1..] == ks[i + 1..];
    assert done + (KeyWrites(ks[i]) + Writes(ks[i + 1..])) == (done + KeyWrites(ks[i])) + Writes(ks[i + 1..]);
  }

  lemma ProgressStuck(ks: seq<Key>, i: nat, done: seq<Write>, n: nat)
    requires i < |ks| && Progress(ks, i, done) && !Repairable(ks[i]) && |done| <= n
    ensures FirstWrites(ks, n) == done
  {
    assert ks[i..][0] == ks[i];
    assert Writes(ks[i..]) == [];
  }

  lemma ProgressCut(ks: seq<Key>, i: nat, done: seq<Write>, n: nat)
    requires i < |ks| && Progress(ks, i, done) && Repairable(ks[i]) && SEP !in ks[i]
    requires |done| <= n <= |done| + 1
    ensures n < |Writes(ks)|
    ensures FirstWrites(ks, n) == done + [Put(Fixed(ks[i]))][..n - |done|]
  {
    ProgressStep(ks, i, done);
    var ws := Writes(ks);
    assert ws == (done + [Put(Fixed(ks[i])), Del(ks[i])]) + Writes(ks[i + 1..]);
  }

  /** The pass over a snapshot, stopping after `budget` writes or at a key it
      panics on. `total` is the last index seen, not the number of rows. */
  method FixReferencedEvents(t: KeyTable, ks: seq<Key>, budget: nat) returns (total: nat, fixed: nat, ended: bool)
    modifies t
    ensures t.rows == Apply(old(t.rows), FirstWrites(ks, budget))
    ensures ended ==> fixed == BadCount(ks) && total == if ks == [] then 0 else |ks| - 1
    ensures ended <==> (forall i :: 0 <= i < |ks| ==> Repairable(ks[i])) && budget >= |Writes(ks)|
  {
    hide Apply, Writes, Repairable, Fixed, FirstWrites;
    total, fixed, ended := 0, 0, false;
    ghost var before, done: seq<Write> := t.rows, [];
    ApplyNothing(before);
    var left: nat := budget;
    var i := 0;
    assert ks[0..] == ks && [] + Writes(ks) == Writes(ks);
    while i < |ks|
      invariant 0 <= i <= |ks|
      invariant Progress(ks, i, done)
      invariant t.rows == Apply(before, done) && left + |done| == budget
      invariant fixed == BadCount(ks[..i]) && total == if i == 0 then 0 else i - 1
    {
      var k := ks[i];
      assert ks[..i + 1][..i] == ks[..i];
      if !Repairable(k) {
        ProgressStuck(ks, i, done, budget);
        return;
      }
      ProgressStep(ks, i, done);
      if SEP !in k {
        if left == 0 {
          ProgressCut(ks, i, done, budget);
          assert done + [] == done;
          return;
        }
        t.Put(Fixed(k));
        ApplyOne(before, done, Put(Fixed(k)));
        if left == 1 {
          ProgressCut(ks, i, done, budget);
          assert [Put(Fixed(k))][..1] == [Put(Fixed(k))];
          return;
        }
        t.Remove(k);
        ApplyOne(before, done + [Put(Fixed(k))], Del(k));
        left := left - 2;
        assert done + [Put(Fixed(k))] + [Del(k)] == done + KeyWrites(k);
        fixed := fixed + 1;
      } else {
        assert done + KeyWrites(k) == done;
      }
      done := done + KeyWrites(k);
      total := if i > total then i else total;
      i := i + 1;
    }
    assert ks[..i] == ks;
    ProgressEnd(ks, done, budget);
    ended := true;
  }

  lemma ProgressEnd(ks: seq<Key>, done: seq<Write>, n: nat)
    requires Progress(ks, |ks|, done) && |done| <= n
    ensures Writes(ks) == done && FirstWrites(ks, n) == done
  {
    assert ks[|ks|..] == [];
  }

  lemma ApplyNothing(rows: set<Key>)
    ensures Apply(rows, []) == rows
  {}

  lemma ApplyOne(rows: set<Key>, ws: seq<Write>, w: Write)
    ensures Apply(rows, ws + [w]) ==
            if w.Put? then Apply(rows, ws) + {w.key} else Apply(rows, ws) - {w.key}
  {
    ApplyConcat(rows, ws, [w]);
    assert [w][1..] == [];
  }
}
