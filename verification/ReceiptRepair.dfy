/** The migration that deletes read receipts repeating their predecessor. */
module ReceiptRepair {
  import opened Bytes
  import opened Codec
  import opened KeyRepairs

  /** A row of the receipt table; its value does not matter here. */
  datatype Receipt = Receipt(room: Utf8, count: u64, user: Utf8)

  const RECEIPT_TYPE := [Plain(Str), Plain(U64), Plain(Str)]

  function Tuple3(r: Receipt): seq<Value> {
    [Just(VStr(r.room)), Just(VU64(r.count)), Just(VStr(r.user))]
  }

  function KeyOf(r: Receipt): Key {
    Encode(Tuple3(r))
  }

  lemma KeyOfIs(r: Receipt)
    ensures KeyOf(r) == (r.room + [SEP]) + (U64Bytes(r.count) + ([SEP] + r.user))
  {
    var xs := Tuple3(r);
    EncodeStep(xs);
    EncodeStep(xs[1..]);
    assert xs[1..][1..] == [Just(VStr(r.user))];
    assert Encode([Just(VStr(r.user))]) == r.user;
    assert xs[1..][0] == Just(VU64(r.count));
    assert r.room + ([SEP] + (U64Bytes(r.count) + ([SEP] + r.user)))
        == (r.room + [SEP]) + (U64Bytes(r.count) + ([SEP] + r.user));
  }

  lemma KeyOfInjective(r: Receipt, s: Receipt)
    requires KeyOf(r) == KeyOf(s)
    ensures r == s
  {
    EncodeInjective(RECEIPT_TYPE, Tuple3(r), Tuple3(s));
    assert Tuple3(r)[0] == Tuple3(s)[0] && Tuple3(r)[1] == Tuple3(s)[1] && Tuple3(r)[2] == Tuple3(s)[2];
  }

  /** Within a room, key order is the order of the counts, then of the users. */
  lemma CountOrder(r: Receipt, s: Receipt)
    requires r.room == s.room
    ensures Less(KeyOf(r), KeyOf(s)) <==> r.count < s.count || (r.count == s.count && Less(r.user, s.user))
  {
    hide Less, U64Bytes;
    KeyOfIs(r);
    KeyOfIs(s);
    var x, y := U64Bytes(r.count), U64Bytes(s.count);
    LessAfterPrefix(r.room + [SEP], x + ([SEP] + r.user), y + ([SEP] + s.user));
    WordOrder(r.count, s.count);
    if r.count == s.count {
      LessAfterPrefix(x, [SEP] + r.user, [SEP] + s.user);
      LessAfterPrefix([SEP], r.user, s.user);
    } else {
      LessSameLength(x, y, [SEP] + r.user, [SEP] + s.user);
    }
  }

  lemma WordOrder(m: u64, n: u64)
    ensures Less(U64Bytes(m), U64Bytes(n)) <==> m < n
    ensures U64Bytes(m) == U64Bytes(n) <==> m == n
  {
    EightBytes();
    BeOrder(m, n, 8);
    BeRoundTrip(m, 8);
    BeRoundTrip(n, 8);
  }

  /** The rows of a room are neighbours in key order. */
  lemma RoomIsContiguous(r: Receipt, s: Receipt, t: Receipt)
    requires Less(KeyOf(r), KeyOf(s)) && Less(KeyOf(s), KeyOf(t)) && r.room == t.room
    ensures s.room == r.room
  {
    hide Less;
    var p := PrefixKey([Just(VStr(r.room))]);
    InRoom(r, r.room);
    InRoom(s, r.room);
    InRoom(t, r.room);
    PrefixIsLeast(p, KeyOf(r));
    if p != KeyOf(r) {
      LessTransitive(p, KeyOf(r), KeyOf(s));
    }
    PrefixIsConvex(p, KeyOf(s), KeyOf(t));
  }

  lemma InRoom(r: Receipt, room: Utf8)
    ensures PrefixKey([Just(VStr(room))]) <= KeyOf(r) <==> r.room == room
  {
    var ps := [Just(VStr(room))];
    assert RECEIPT_TYPE[..1] == [Plain(Str)];
    PrefixExact(RECEIPT_TYPE, ps, Tuple3(r));
    assert Tuple3(r)[..1] == [Just(VStr(r.room))];
    assert ps == Tuple3(r)[..1] <==> ps[0] == Tuple3(r)[..1][0];
  }

  // ------------------------------------------------------------ what is kept

  /** The room and user of the row before. */
  datatype Last = Nothing | Seen(room: Utf8, user: Utf8)

  function After(r: Receipt): Last {
    Seen(r.room, r.user)
  }

  predicate IsDup(r: Receipt, last: Last) {
    After(r) == last
  }

  /** The rows that do not repeat the room and user of the row before. */
  function Keep(rs: seq<Receipt>, last: Last): seq<Receipt> {
    if rs == [] then []
    else (if IsDup(rs[0], last) then [] else [rs[0]]) + Keep(rs[1..], After(rs[0]))
  }

  /** The rows left when only the first n repetitions were deleted. */
  function Cut(rs: seq<Receipt>, last: Last, n: nat): seq<Receipt> {
    if rs == [] then []
    else if IsDup(rs[0], last) && n > 0 then Cut(rs[1..], After(rs[0]), n - 1)
    else [rs[0]] + Cut(rs[1..], After(rs[0]), n)
  }

  /** A pass after an interrupted pass keeps what one whole pass keeps. */
  lemma {:induction false} RestartConverges(rs: seq<Receipt>, last: Last, n: nat)
    ensures Keep(Cut(rs, last, n), last) == Keep(rs, last)
    decreases |rs|
  {
    if rs != [] {
      if IsDup(rs[0], last) && n > 0 {
        RestartConverges(rs[1..], last, n - 1);
      } else {
        RestartConverges(rs[1..], After(rs[0]), n);
        var c := Cut(rs, last, n);
        assert c[1..] == Cut(rs[1..], After(rs[0]), n);
      }
    }
  }

  /** The rows left after a number of interrupted passes, one after another. */
  function Cuts(rs: seq<Receipt>, ns: seq<nat>): seq<Receipt> {
    if ns == [] then rs else Cut(Cuts(rs, ns[..|ns| - 1]), Nothing, ns[|ns| - 1])
  }

  /** However often it is interrupted, a completed pass keeps the same rows. */
  lemma {:induction false} RestartsConverge(rs: seq<Receipt>, ns: seq<nat>)
    ensures Keep(Cuts(rs, ns), Nothing) == Keep(rs, Nothing)
    decreases |ns|
  {
    if ns != [] {
      RestartsConverge(rs, ns[..|ns| - 1]);
      RestartConverges(Cuts(rs, ns[..|ns| - 1]), Nothing, ns[|ns| - 1]);
    }
  }

  lemma {:induction false} EnoughWrites(rs: seq<Receipt>, last: Last, n: nat)
    requires n >= |rs|
    ensures Cut(rs, last, n) == Keep(rs, last)
    decreases |rs|
  {
    if rs != [] {
      EnoughWrites(rs[1..], After(rs[0]), if IsDup(rs[0], last) && n > 0 then n - 1 else n);
    }
  }

  /** A second pass deletes nothing. */
  lemma KeepIdempotent(rs: seq<Receipt>, last: Last)
    ensures Keep(Keep(rs, last), last) == Keep(rs, last)
  {
    EnoughWrites(rs, last, |rs|);
    RestartConverges(rs, last, |rs|);
  }

  /** Rows in key order. */
  predicate Listed(rs: seq<Receipt>) {
    forall i, j :: 0 <= i < j < |rs| ==> Less(KeyOf(rs[i]), KeyOf(rs[j]))
  }

  /** A table of receipts: its rows in key order. */
  type ReceiptTable = rs: seq<Receipt> | Listed(rs)

  lemma ListedFront(r: Receipt, rest: seq<Receipt>, tail: seq<Receipt>)
    requires Listed([r] + tail) && Listed(rest) && forall x :: x in rest ==> x in tail
    ensures Listed([r] + rest)
  {
    hide Less, KeyOf;
    forall j | 0 <= j < |rest|
      ensures Less(KeyOf(r), KeyOf(rest[j]))
    {
      assert rest[j] in rest;
      var k :| 0 <= k < |tail| && tail[k] == rest[j];
      assert ([r] + tail)[0] == r && ([r] + tail)[k + 1] == rest[j];
    }
  }

  lemma ListedTail(rs: seq<Receipt>)
    requires Listed(rs) && rs != []
    ensures Listed(rs[1..])
  {
    hide Less, KeyOf;
  }

  lemma ListedIsDistinct(rs: seq<Receipt>)
    requires Listed(rs)
    ensures Distinct(rs)
  {
    hide Less, KeyOf;
    forall i, j | 0 <= i < j < |rs|
      ensures rs[i] != rs[j]
    {
      LessIrreflexive(KeyOf(rs[j]));
    }
  }

  // ------------------------------------------------------- one write at a time

  /** The rows that a pass deletes, in order. */
  function Dups(rs: seq<Receipt>, last: Last): seq<Receipt> {
    if rs == [] then []
    else (if IsDup(rs[0], last) then [rs[0]] else []) + Dups(rs[1..], After(rs[0]))
  }

  function Without(rs: seq<Receipt>, r: Receipt): (left: seq<Receipt>)
    ensures forall x :: x in left ==> x in rs
    ensures Listed(rs) ==> Listed(left)
  {
    if rs == [] then []
    else
      var rest := Without(rs[1..], r);
      assert rs == [rs[0]] + rs[1..];
      if rs[0] == r then
        assert Listed(rs) ==> Listed(rs[1..]) by { if Listed(rs) { ListedTail(rs); } }
        rest
      else
        assert Listed(rs) ==> Listed([rs[0]] + rest) by {
          if Listed(rs) {
            ListedTail(rs);
            ListedFront(rs[0], rest, rs[1..]);
          }
        }
        [rs[0]] + rest
  }

  function DropAll(rs: seq<Receipt>, ds: seq<Receipt>): (left: seq<Receipt>)
    ensures Listed(rs) ==> Listed(left)
    decreases |ds|
  {
    if ds == [] then rs else DropAll(Without(rs, ds[0]), ds[1..])
  }

  predicate Distinct(rs: seq<Receipt>) {
    forall i, j :: 0 <= i < j < |rs| ==> rs[i] != rs[j]
  }

  lemma {:induction false} WithoutAbsent(rs: seq<Receipt>, r: Receipt)
    requires r !in rs
    ensures Without(rs, r) == rs
  {
    if rs != [] {
      WithoutAbsent(rs[1..], r);
    }
  }

  lemma {:induction false} DropBehind(r: Receipt, rs: seq<Receipt>, ds: seq<Receipt>)
    requires r !in ds
    ensures DropAll([r] + rs, ds) == [r] + DropAll(rs, ds)
    decreases |ds|
  {
    if ds != [] {
      assert ([r] + rs)[1..] == rs;
      assert Without([r] + rs, ds[0]) == [r] + Without(rs, ds[0]);
      DropBehind(r, Without(rs, ds[0]), ds[1..]);
    }
  }

  lemma {:induction false} DupsAreRows(rs: seq<Receipt>, last: Last, r: Receipt)
    requires r in Dups(rs, last)
    ensures r in rs
  {
    if r != rs[0] {
      DupsAreRows(rs[1..], After(rs[0]), r);
    }
  }

  lemma {:induction false} CutZero(rs: seq<Receipt>, last: Last)
    ensures Cut(rs, last, 0) == rs
  {
    if rs != [] {
      CutZero(rs[1..], After(rs[0]));
    }
  }

  /** Deleting the first n repetitions one by one is the cut pass. */
  lemma {:induction false} DropsAreCut(rs: seq<Receipt>, last: Last, n: nat)
    requires Distinct(rs) && n <= |Dups(rs, last)|
    ensures DropAll(rs, Dups(rs, last)[..n]) == Cut(rs, last, n)
    decreases |rs|
  {
    hide IsDup, After;
    if n == 0 {
      CutZero(rs, last);
    } else {
      var r, tail := rs[0], rs[1..];
      var ds := Dups(tail, After(r));
      assert rs == [r] + tail && r !in tail;
      if IsDup(r, last) {
        DropsAreCut(tail, After(r), n - 1);
        assert Dups(rs, last)[..n] == [r] + ds[..n - 1];
        DropFirst(r, tail, ds[..n - 1]);
      } else {
        DropsAreCut(tail, After(r), n);
        assert Dups(rs, last) == ds;
        if r in ds[..n] {
          DupsAreRows(tail, After(r), r);
        }
        DropBehind(r, tail, ds[..n]);
      }
    }
  }

  lemma {:induction false} DropFirst(r: Receipt, tail: seq<Receipt>, ds: seq<Receipt>)
    requires r !in tail
    ensures DropAll([r] + tail, [r] + ds) == DropAll(tail, ds)
  {
    WithoutAbsent(tail, r);
    var rs, all := [r] + tail, [r] + ds;
    assert rs[1..] == tail;
    assert Without(rs, r) == tail;
    hide Without;
    assert all[0] == r && all[1..] == ds;
  }

  /** The table without its repetitions. */
  function DropDups(rs: seq<Receipt>): (r: seq<Receipt>)
    ensures Distinct(rs) ==> r == Keep(rs, Nothing)
    ensures Listed(rs) ==> Listed(r)
  {
    var ds := Dups(rs, Nothing);
    AllDropped(rs);
    DropAll(rs, ds)
  }

  lemma AllDropped(rs: seq<Receipt>)
    ensures Distinct(rs) ==> DropAll(rs, Dups(rs, Nothing)) == Keep(rs, Nothing)
  {
    hide Dups, DropAll, Keep, Cut;
    var ds := Dups(rs, Nothing);
    if Distinct(rs) {
      assert ds[..|ds|] == ds;
      DropsAreCut(rs, Nothing, |ds|);
      DupCount(rs, Nothing);
      SameWhenDone(rs, Nothing, |ds|);
    }
  }

  lemma {:induction false} DupCount(rs: seq<Receipt>, last: Last)
    ensures |Dups(rs, last)| + |Keep(rs, last)| == |rs|
  {
    if rs != [] {
      DupCount(rs[1..], After(rs[0]));
    }
  }

  lemma {:induction false} CutIsDistinct(rs: seq<Receipt>, last: Last, n: nat)
    requires Distinct(rs)
    ensures Distinct(Cut(rs, last, n)) && forall r :: r in Cut(rs, last, n) ==> r in rs
    decreases |rs|
  {
    if rs != [] {
      var r, tail := rs[0], rs[1..];
      assert r !in tail;
      if IsDup(r, last) && n > 0 {
        CutIsDistinct(tail, After(r), n - 1);
      } else {
        CutIsDistinct(tail, After(r), n);
        var rest := Cut(tail, After(r), n);
        assert Cut(rs, last, n) == [r] + rest;
        assert forall i :: 0 <= i < |rest| ==> rest[i] in tail;
      }
    }
  }

  predicate StartsRun(rs: seq<Receipt>, i: nat)
    requires i < |rs|
  {
    i == 0 || After(rs[i - 1]) != After(rs[i])
  }

  /** What is kept: the first row of each run. */
  lemma {:induction false} KeepsRunStarts(rs: seq<Receipt>, last: Last, r: Receipt)
    ensures r in Keep(rs, last) <==>
              exists i :: 0 <= i < |rs| && rs[i] == r && (if i == 0 then !IsDup(r, last) else StartsRun(rs, i))
    decreases |rs|
  {
    if rs != [] {
      var tail := rs[1..];
      KeepsRunStarts(tail, After(rs[0]), r);
      if r in Keep(tail, After(rs[0])) {
        var j :| 0 <= j < |tail| && tail[j] == r && (if j == 0 then !IsDup(r, After(rs[0])) else StartsRun(tail, j));
        assert rs[j + 1] == r && StartsRun(rs, j + 1);
      }
      forall i | 0 < i < |rs| && rs[i] == r && StartsRun(rs, i) ensures r in Keep(tail, After(rs[0])) {
        assert tail[i - 1] == r;
        assert i > 1 ==> StartsRun(tail, i - 1);
      }
    }
  }

  /** Every row belongs to a run that begins at or before it, with its lowest
      count first. */
  lemma {:induction false} LowestCountFirst(rs: seq<Receipt>, j: nat) returns (i: nat)
    requires Listed(rs) && j < |rs|
    ensures i <= j && StartsRun(rs, i)
    ensures forall m :: i <= m <= j ==> After(rs[m]) == After(rs[j])
    ensures i < j ==> rs[i].count < rs[j].count
  {
    if StartsRun(rs, j) {
      i := j;
    } else {
      i := LowestCountFirst(rs, j - 1);
      CountOrder(rs[j - 1], rs[j]);
      LessIrreflexive(rs[j].user);
    }
  }

  // ---------------------------------------------------------------- the loop

  function Keys(rs: seq<Receipt>): set<Key> {
    set i | 0 <= i < |rs| :: KeyOf(rs[i])
  }

  lemma {:induction false} KeysConcat(a: seq<Receipt>, b: seq<Receipt>)
    ensures Keys(a + b) == Keys(a) + Keys(b)
  {
    hide KeyOf;
    var c := a + b;
    forall k | k in Keys(a) + Keys(b) ensures k in Keys(c) {
      if k in Keys(a) {
        var i :| 0 <= i < |a| && KeyOf(a[i]) == k;
        assert c[i] == a[i];
      } else {
        var i :| 0 <= i < |b| && KeyOf(b[i]) == k;
        assert c[|a| + i] == b[i];
      }
    }
    forall k | k in Keys(c) ensures k in Keys(a) + Keys(b) {
      var i :| 0 <= i < |c| && KeyOf(c[i]) == k;
      assert c[i] == if i < |a| then a[i] else b[i - |a|];
    }
  }

  lemma KeysOne(r: Receipt)
    ensures Keys([r]) == {KeyOf(r)}
  {
    hide KeyOf;
    assert [r][0] == r;
  }

  /** Deleting the key of one row leaves the keys of the others. */
  lemma KeysWithout(a: seq<Receipt>, r: Receipt, b: seq<Receipt>)
    requires r !in a && r !in b
    ensures Keys(a + [r] + b) - {KeyOf(r)} == Keys(a + b)
  {
    KeysConcat(a + [r], b);
    KeysConcat(a, [r]);
    KeysConcat(a, b);
    KeysOne(r);
    forall i | 0 <= i < |a| ensures KeyOf(a[i]) != KeyOf(r) {
      if KeyOf(a[i]) == KeyOf(r) {
        KeyOfInjective(a[i], r);
      }
    }
    forall i | 0 <= i < |b| ensures KeyOf(b[i]) != KeyOf(r) {
      if KeyOf(b[i]) == KeyOf(r) {
        KeyOfInjective(b[i], r);
      }
    }
  }

  /** Before row i: `kept` is what the pass left so far. */
  ghost predicate Standing(rs: seq<Receipt>, n: nat, i: nat, last: Last, left: nat, kept: seq<Receipt>)
    requires i <= |rs|
  {
    && Cut(rs, Nothing, n) == kept + Cut(rs[i..], last, left)
    && (forall r :: r in kept ==> r !in rs[i..])
  }

  lemma StandingStep(rs: seq<Receipt>, n: nat, i: nat, last: Last, left: nat, kept: seq<Receipt>)
    requires i < |rs| && Distinct(rs) && Standing(rs, n, i, last, left, kept)
    ensures rs[i] !in rs[i + 1..] && rs[i] !in kept && rs[i..] == [rs[i]] + rs[i + 1..]
    ensures IsDup(rs[i], last) && left > 0 ==> Standing(rs, n, i + 1, After(rs[i]), left - 1, kept)
    ensures !(IsDup(rs[i], last) && left > 0) ==> Standing(rs, n, i + 1, After(rs[i]), left, kept + [rs[i]])
  {
    var r := rs[i];
    assert rs[i..][0] == r && rs[i..][1..] == rs[i + 1..];
    assert r in rs[i..];
    if !(IsDup(r, last) && left > 0) {
      var c := Cut(rs[i + 1..], After(r), left);
      assert kept + ([r] + c) == (kept + [r]) + c;
    }
  }

  /** The pass over the receipts in key order; deletions past `budget` are lost.
      The table is left with the first row of every run, and the rows of the
      repetitions whose deletion was lost. */
  method DedupReceipts(t: KeyTable, rs: seq<Receipt>, budget: nat) returns (total: nat, fixed: nat)
    requires t.rows == Keys(rs) && Distinct(rs)
    modifies t
    ensures t.rows == Keys(Cut(rs, Nothing, budget))
    ensures total == |rs| && fixed == |rs| - |Keep(rs, Nothing)|
    ensures budget >= fixed ==> t.rows == Keys(Keep(rs, Nothing))
  {
    hide KeyOf, Keys, Cut, Standing, Keep, IsDup, After, Distinct;
    total, fixed := 0, 0;
    var last, left: nat := Nothing, budget;
    ghost var kept: seq<Receipt> := [];
    var i := 0;
    StandingStart(rs, budget);
    assert rs[0..] == rs && kept + rs == rs;
    while i < |rs|
      invariant 0 <= i <= |rs| && total == i
      invariant t.rows == Keys(kept + rs[i..])
      invariant Standing(rs, budget, i, last, left, kept)
      invariant |Keep(rs, Nothing)| == (i - fixed) + |Keep(rs[i..], last)|
    {
      var r := rs[i];
      StandingStep(rs, budget, i, last, left, kept);
      KeepStep(rs, i, last);
      var dup := IsDup(r, last);
      last := After(r);
      if dup && left > 0 {
        assert kept + rs[i..] == kept + [r] + rs[i + 1..];
        KeysWithout(kept, r, rs[i + 1..]);
        t.Remove(KeyOf(r));
        left := left - 1;
      } else {
        assert kept + rs[i..] == (kept + [r]) + rs[i + 1..];
        kept := kept + [r];
      }
      fixed := fixed + (if dup then 1 else 0);
      total := total + 1;
      i := i + 1;
    }
    StandingEnd(rs, budget, last, left, kept);
    KeepNothing(rs[i..], last);
    if budget >= fixed {
      SameWhenDone(rs, Nothing, budget);
    }
  }

  lemma KeepStep(rs: seq<Receipt>, i: nat, last: Last)
    requires i < |rs|
    ensures |Keep(rs[i..], last)| == (if IsDup(rs[i], last) then 0 else 1) + |Keep(rs[i + 1..], After(rs[i]))|
  {
    assert rs[i..][1..] == rs[i + 1..];
  }

  lemma KeepNothing(rs: seq<Receipt>, last: Last)
    requires rs == []
    ensures Keep(rs, last) == []
  {}

  lemma StandingStart(rs: seq<Receipt>, n: nat)
    ensures Standing(rs, n, 0, Nothing, n, [])
  {
    assert rs[0..] == rs;
    assert [] + Cut(rs, Nothing, n) == Cut(rs, Nothing, n);
  }

  lemma StandingEnd(rs: seq<Receipt>, n: nat, last: Last, left: nat, kept: seq<Receipt>)
    requires Standing(rs, n, |rs|, last, left, kept)
    ensures Cut(rs, Nothing, n) == kept + rs[|rs|..]
  {
    assert rs[|rs|..] == [];
  }

  lemma {:induction false} SameWhenDone(rs: seq<Receipt>, last: Last, n: nat)
    requires n >= |rs| - |Keep(rs, last)|
    ensures Cut(rs, last, n) == Keep(rs, last)
    decreases |rs|
  {
    if rs != [] {
      KeepShrinks(rs[1..], After(rs[0]));
      SameWhenDone(rs[1..], After(rs[0]), if IsDup(rs[0], last) && n > 0 then n - 1 else n);
    }
  }

  lemma {:induction false} KeepShrinks(rs: seq<Receipt>, last: Last)
    ensures |Keep(rs, last)| <= |rs|
  {
    if rs != [] {
      KeepShrinks(rs[1..], After(rs[0]));
    }
  }
}
