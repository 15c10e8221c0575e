/** The migration that removes one of two adjacent separators from the keys of
    the joined-members table. It deletes a bad row before it inserts the repaired
    one, so unlike the other repairs it is not safe to interrupt. */
module DoubleSeparatorRepair {
  import Common
  import opened Bytes
  import opened Codec

  type Key = seq<byte>
  type Val = seq<byte>
  type Table = map<Key, Val>

  // --------------------------------------------------------------- one key

  /** The key has a separator, and a second one right behind the first. */
  predicate Bad(k: Key) {
    var i := RecordLen(k);
    i + 1 < |k| && k[i + 1] == SEP
  }

  /** Without the first separator if it is doubled. */
  function Fixed(k: Key): Key {
    if Bad(k) then k[..RecordLen(k)] + k[RecordLen(k) + 1..] else k
  }

  /** With the first separator doubled. */
  function Doubled(k: Key): Key
    requires SEP in k
  {
    k[..RecordLen(k)] + [SEP] + k[RecordLen(k)..]
  }

  /** Still bad after the repair: three separators in a row. */
  predicate Tripled(k: Key) {
    Bad(k) && Bad(Fixed(k))
  }

  /** The first separator of a key that is split there. */
  lemma FirstSep(a: Key, b: Key)
    requires SEP !in a && b != [] && b[0] == SEP
    ensures RecordLen(a + b) == |a| && SEP in a + b
    ensures (a + b)[..|a|] == a && (a + b)[|a|..] == b
  {
    RecordLenOf(a, b);
    assert (a + b)[|a|] == SEP;
  }

  lemma DoubledParts(a: Key, b: Key)
    requires SEP !in a && b != [] && b[0] == SEP
    ensures SEP in a + b && Doubled(a + b) == a + ([SEP] + b)
  {
    hide RecordLen;
    FirstSep(a, b);
  }

  lemma FixedParts(a: Key, b: Key)
    requires SEP !in a && b != [] && b[0] == SEP
    ensures Bad(a + ([SEP] + b)) && Fixed(a + ([SEP] + b)) == a + b
  {
    hide RecordLen;
    FirstSep(a, [SEP] + b);
    var d := a + ([SEP] + b);
    assert d[|a| + 1] == b[0] && d[|a| + 1..] == b;
  }

  lemma {:induction false} LessOneMore(b: seq<byte>)
    ensures Less(b, [SEP] + b)
  {
    if b != [] && b[0] == SEP {
      LessOneMore(b[1..]);
      assert ([SEP] + b)[1..] == b == [SEP] + b[1..];
    }
  }

  /** Doubling and repairing undo each other, and a doubled key comes later. */
  lemma FixedOfDoubled(k: Key)
    requires SEP in k
    ensures SEP in Doubled(k) && Bad(Doubled(k)) && Fixed(Doubled(k)) == k && Less(k, Doubled(k))
  {
    var i := RecordLen(k);
    hide RecordLen, Bad, Fixed, Doubled, Less;
    var a, b := k[..i], k[i..];
    assert k == a + b;
    assert i < |k|;
    DoubledParts(a, b);
    FixedParts(a, b);
    LessOneMore(b);
    LessAfterPrefix(a, b, [SEP] + b);
    FirstSep(a, [SEP] + b);
  }

  lemma DoubledOfFixed(k: Key)
    requires Bad(k)
    ensures SEP in k && SEP in Fixed(k) && Doubled(Fixed(k)) == k && Fixed(k) != k
  {
    var i := RecordLen(k);
    var a, b := k[..i], k[i + 1..];
    assert k[i] == SEP;
    assert k == a + ([SEP] + b);
    hide RecordLen, Bad, Fixed, Doubled;
    DoubledParts(a, b);
    FixedParts(a, b);
    assert |a + b| == |k| - 1;
  }

  // --------------------------------------------------------------- the pass

  datatype Row = Row(key: Key, val: Val)

  datatype Write = Del(key: Key) | Put(key: Key, val: Val)

  function Apply(t: Table, ws: seq<Write>): Table {
    if ws == [] then t
    else
      var u, w := Apply(t, ws[..|ws| - 1]), ws[|ws| - 1];
      match w
      case Del(k) => u - {k}
      case Put(k, v) => u[k := v]
  }

  /** One bad row: delete it, then insert its value under the repaired key. */
  function RowWrites(r: Row): seq<Write> {
    if Bad(r.key) then [Del(r.key), Put(Fixed(r.key), r.val)] else []
  }

  /** All writes of a pass, up to a key without a separator, on which it panics. */
  function Writes(rows: seq<Row>): seq<Write> {
    if rows == [] || SEP !in rows[0].key then [] else RowWrites(rows[0]) + Writes(rows[1..])
  }

  predicate Separated(t: Table) {
    forall k :: k in t ==> SEP in k
  }

  /** The rows of a table in key order, as a cursor reads them. */
  predicate Lists(rows: seq<Row>, t: Table) {
    && (forall i, j :: 0 <= i < j < |rows| ==> Less(rows[i].key, rows[j].key))
    && (forall i :: 0 <= i < |rows| ==> rows[i].key in t && t[rows[i].key] == rows[i].val)
    && (forall k :: k in t ==> Reached(rows, |rows|, k))
  }

  /** One of the first n rows has the key. */
  predicate Reached(rows: seq<Row>, n: nat, k: Key)
    requires n <= |rows|
  {
    exists i :: 0 <= i < n && rows[i].key == k
  }

  function Get(t: Table, x: Key): Common.Option<Val> {
    if x in t then Common.Some(t[x]) else Common.None
  }

  lemma SameGets(t: Table, u: Table)
    requires forall x :: Get(t, x) == Get(u, x)
    ensures t == u
  {
    forall x
      ensures x in t <==> x in u
      ensures x in t ==> t[x] == u[x]
    {
      assert Get(t, x) == Get(u, x);
    }
  }

  lemma {:induction false} ApplyConcat(t: Table, a: seq<Write>, b: seq<Write>)
    ensures Apply(t, a + b) == Apply(Apply(t, a), b)
  {
    if b == [] {
      assert a + b == a;
    } else {
      ApplyConcat(t, a, b[..|b| - 1]);
      assert (a + b)[..|a + b| - 1] == a + b[..|b| - 1];
    }
  }

  lemma {:induction false} WritesSnoc(rows: seq<Row>, n: nat)
    requires n < |rows| && forall i :: 0 <= i <= n ==> SEP in rows[i].key
    ensures Writes(rows[..n + 1]) == Writes(rows[..n]) + RowWrites(rows[n])
  {
    hide RowWrites;
    if n == 0 {
      assert rows[..1] == [rows[0]] && rows[..0] == [];
      assert Writes([rows[0]]) == RowWrites(rows[0]) + Writes([rows[0]][1..]);
    } else {
      WritesSnoc(rows[1..], n - 1);
      assert rows[..n + 1][1..] == rows[1..][..n] && rows[..n][1..] == rows[1..][..n - 1];
      assert RowWrites(rows[0]) + (Writes(rows[..n][1..]) + RowWrites(rows[n]))
          == (RowWrites(rows[0]) + Writes(rows[..n][1..])) + RowWrites(rows[n]);
    }
  }

  /** The table after the first n rows of the pass. */
  function AfterRows(t: Table, rows: seq<Row>, n: nat): Table
    requires n <= |rows|
  {
    Apply(t, Writes(rows[..n]))
  }

  lemma AfterRowsStep(t: Table, rows: seq<Row>, n: nat)
    requires n < |rows| && forall i :: 0 <= i <= n ==> SEP in rows[i].key
    ensures
      var u, r := AfterRows(t, rows, n), rows[n];
      AfterRows(t, rows, n + 1) == if Bad(r.key) then (u - {r.key})[Fixed(r.key) := r.val] else u
  {
    hide Bad, Fixed, Writes;
    WritesSnoc(rows, n);
    ApplyConcat(t, Writes(rows[..n]), RowWrites(rows[n]));
    RowApplied(AfterRows(t, rows, n), rows[n]);
    hide Apply, RowWrites;
  }

  lemma RowApplied(u: Table, r: Row)
    ensures Apply(u, RowWrites(r)) == if Bad(r.key) then (u - {r.key})[Fixed(r.key) := r.val] else u
  {
    hide Bad, Fixed;
    var ws := RowWrites(r);
    assert Apply(u, []) == u;
    if Bad(r.key) {
      assert ws[..1] == [Del(r.key)] && ws[..1][..0] == [];
      assert Apply(u, ws[..1]) == u - {r.key};
    }
  }

  /** What the table says after n rows: a key whose doubled form was reached has
      the value from there, a bad key that was reached is gone, all else is as
      it was. */
  function Expected(t: Table, rows: seq<Row>, n: nat, x: Key): Common.Option<Val>
    requires n <= |rows|
  {
    if SEP in x && Reached(rows, n, Doubled(x)) then Get(t, Doubled(x))
    else if Reached(rows, n, x) && Bad(x) then Common.None
    else Get(t, x)
  }

  /** A doubled key is reached after its key. */
  lemma ReachedLater(rows: seq<Row>, t: Table, n: nat, x: Key)
    requires Lists(rows, t) && n <= |rows| && SEP in x && Reached(rows, n, Doubled(x)) && x in t
    ensures Reached(rows, n, x)
  {
    hide Doubled;
    var i :| 0 <= i < n && rows[i].key == Doubled(x);
    assert Reached(rows, |rows|, x);
    var j :| 0 <= j < |rows| && rows[j].key == x;
    FixedOfDoubled(x);
    if j > i {
      LessAsymmetric(x, Doubled(x));
    }
  }

  lemma NotReachedYet(rows: seq<Row>, t: Table, n: nat)
    requires Lists(rows, t) && n < |rows| && SEP in rows[n].key
    ensures !Reached(rows, n, rows[n].key) && !Reached(rows, n + 1, Doubled(rows[n].key))
  {
    hide Doubled;
    var k := rows[n].key;
    FixedOfDoubled(k);
    if Reached(rows, n, k) {
      var i :| 0 <= i < n && rows[i].key == k;
      LessIrreflexive(k);
    }
    if Reached(rows, n + 1, Doubled(k)) {
      var i :| 0 <= i < n + 1 && rows[i].key == Doubled(k);
      if i < n {
        LessAsymmetric(k, Doubled(k));
      } else {
        LessIrreflexive(k);
      }
    }
  }

  lemma ReachedStep(rows: seq<Row>, n: nat, x: Key)
    requires n < |rows|
    ensures Reached(rows, n + 1, x) <==> Reached(rows, n, x) || rows[n].key == x
  {
    if Reached(rows, n, x) {
      var i :| 0 <= i < n && rows[i].key == x;
      assert 0 <= i < n + 1;
    } else if rows[n].key == x {
      assert 0 <= n < n + 1 && rows[n].key == x;
    }
  }

  /** One more row, for one key. */
  lemma SaysStep(t: Table, rows: seq<Row>, n: nat, u: Table, x: Key)
    requires Lists(rows, t) && Separated(t) && n < |rows|
    requires Get(u, x) == Expected(t, rows, n, x)
    ensures
      var r := rows[n];
      Get(if Bad(r.key) then (u - {r.key})[Fixed(r.key) := r.val] else u, x) == Expected(t, rows, n + 1, x)
  {
    hide Reached, Bad, Fixed, Doubled, Lists;
    ListedRow(rows, t, n);
    NotReachedYet(rows, t, n);
    ReachedStep(rows, n, x);
    if SEP in x {
      FixedOfDoubled(x);
      ReachedStep(rows, n, Doubled(x));
    }
    if Bad(rows[n].key) {
      DoubledOfFixed(rows[n].key);
    }
  }

  lemma {:induction false} PassSays(t: Table, rows: seq<Row>, n: nat, x: Key)
    requires Lists(rows, t) && Separated(t) && n <= |rows|
    ensures Get(AfterRows(t, rows, n), x) == Expected(t, rows, n, x)
  {
    if n == 0 {
      assert rows[..0] == [];
    } else {
      hide Writes, RowWrites, Apply, AfterRows, Expected, Lists, Bad, Fixed;
      PassSays(t, rows, n - 1, x);
      ListedRow(rows, t, n - 1);
      AfterRowsStep(t, rows, n - 1);
      SaysStep(t, rows, n - 1, AfterRows(t, rows, n - 1), x);
    }
  }

  lemma ListedRow(rows: seq<Row>, t: Table, n: nat)
    requires Lists(rows, t) && Separated(t) && n < |rows|
    ensures rows[n].key in t && t[rows[n].key] == rows[n].val
    ensures forall i :: 0 <= i <= n ==> SEP in rows[i].key
  {
  }

  // ---------------------------------------------------------- the whole pass

  /** What a table says about a key after a whole pass: the value of the doubled
      form if that was there, nothing if the key itself is bad, else as before. */
  function Shifted(t: Table, x: Key): Common.Option<Val> {
    if SEP in x && Doubled(x) in t then Common.Some(t[Doubled(x)])
    else if Bad(x) then Common.None
    else Get(t, x)
  }

  /** What one whole pass is for. */
  ghost predicate IsShift(u: Table, t: Table) {
    forall x :: Get(u, x) == Shifted(t, x)
  }

  lemma AllReached(rows: seq<Row>, t: Table, x: Key)
    requires Lists(rows, t)
    ensures Reached(rows, |rows|, x) <==> x in t
  {
    if Reached(rows, |rows|, x) {
      var i :| 0 <= i < |rows| && rows[i].key == x;
    }
  }

  /** A whole pass shifts the table, whatever separators its keys have. */
  lemma FullRepair(t: Table, rows: seq<Row>)
    requires Lists(rows, t) && Separated(t)
    ensures IsShift(Apply(t, Writes(rows)), t)
  {
    hide Lists, Reached, Bad, Doubled, Apply, Writes;
    assert rows[..|rows|] == rows;
    forall x
      ensures Get(Apply(t, Writes(rows)), x) == Shifted(t, x)
    {
      PassSays(t, rows, |rows|, x);
      AllReached(rows, t, x);
      if SEP in x {
        AllReached(rows, t, Doubled(x));
      }
    }
  }

  /** A table without bad keys. */
  predicate Clean(t: Table) {
    forall k :: k in t ==> !Bad(k)
  }

  /** One pass is enough exactly if no key has three separators in a row. */
  lemma OnePassIsEnoughIff(t: Table, u: Table)
    requires Separated(t) && IsShift(u, t)
    ensures Clean(u) <==> forall k :: k in t ==> !Tripled(k)
  {
    hide Bad, Fixed, Doubled;
    if k :| k in t && Tripled(k) {
      DoubledOfFixed(k);
      assert Get(u, Fixed(k)) == Shifted(t, Fixed(k));
      assert Fixed(k) in u && Bad(Fixed(k));
    } else {
      forall x | x in u
        ensures !Bad(x)
      {
        assert Get(u, x) == Shifted(t, x);
        if SEP in x {
          FixedOfDoubled(x);
        }
        assert Bad(x) ==> Tripled(Doubled(x));
      }
    }
  }

  // ------------------------------------------------------------ interruption

  /** The table left when the process dies after n rows, in the middle of one
      more if `half` is set. */
  function CutTable(t: Table, rows: seq<Row>, n: nat, half: bool): Table
    requires n <= |rows| && (half ==> n < |rows|)
  {
    if half then AfterRows(t, rows, n) - {rows[n].key} else AfterRows(t, rows, n)
  }

  /** Every cut of the writes is one of these. */
  lemma CutIsTable(t: Table, rows: seq<Row>, w: nat) returns (n: nat, half: bool)
    requires Lists(rows, t) && Separated(t) && w <= |Writes(rows)|
    ensures n <= |rows| && (half ==> n < |rows| && Bad(rows[n].key))
    ensures Apply(t, Writes(rows)[..w]) == CutTable(t, rows, n, half)
    ensures half <==> w > 0 && Writes(rows)[w - 1].Del?
    ensures half ==> Writes(rows)[w - 1].key == rows[n].key
  {
    hide Writes, Apply, CutTable, Bad;
    assert rows[..|rows|] == rows;
    n, half := CutPoint(rows, |rows|, w);
    CutTableIs(t, rows, n);
    assert Writes(rows[..n]) + [] == Writes(rows[..n]);
  }

  lemma {:induction false} CutPoint(rows: seq<Row>, m: nat, w: nat) returns (n: nat, half: bool)
    requires m <= |rows| && w <= |Writes(rows[..m])| && forall i :: 0 <= i < m ==> SEP in rows[i].key
    ensures n <= m && (half ==> n < m && Bad(rows[n].key))
    ensures Writes(rows[..m])[..w] == Writes(rows[..n]) + (if half then [Del(rows[n].key)] else [])
    ensures half <==> w > 0 && Writes(rows[..m])[w - 1].Del?
    ensures half ==> Writes(rows[..m])[w - 1].key == rows[n].key
  {
    hide Bad, Fixed, Writes;
    var all := Writes(rows[..m]);
    NoWrites(rows);
    if w == 0 {
      n, half := 0, false;
    } else {
      assert m > 0;
      WritesSnoc(rows, m - 1);
      var before, r := Writes(rows[..m - 1]), rows[m - 1];
      if w <= |before| {
        n, half := CutPoint(rows, m - 1, w);
        assert all[..w] == before[..w] && all[w - 1] == before[w - 1];
      } else {
        assert all == before + [Del(r.key), Put(Fixed(r.key), r.val)];
        hide RowWrites;
        n, half := if w == |all| then m else m - 1, w < |all|;
        assert w < |all| ==> all[..w] == before + [Del(r.key)] && all[w - 1] == Del(r.key);
        assert w == |all| ==> all[..w] == all + [];
      }
    }
  }

  lemma NoWrites(rows: seq<Row>)
    ensures Writes(rows[..0]) == []
  {
  }

  lemma CutTableIs(t: Table, rows: seq<Row>, n: nat)
    requires n <= |rows|
    ensures CutTable(t, rows, n, false) == Apply(t, Writes(rows[..n]))
    ensures n < |rows| ==> CutTable(t, rows, n, true) == Apply(t, Writes(rows[..n]) + [Del(rows[n].key)])
  {
    hide Writes, Apply;
    if n < |rows| {
      ApplyDel(t, Writes(rows[..n]), rows[n].key);
    }
  }

  lemma ApplyDel(t: Table, ws: seq<Write>, k: Key)
    ensures Apply(t, ws + [Del(k)]) == Apply(t, ws) - {k}
  {
    assert (ws + [Del(k)])[..|ws|] == ws;
  }

  /** A cut that a later whole pass makes up for: no key was reached that is bad
      again after its repair, and if a row was deleted without being inserted,
      the repaired key already had its value. */
  predicate Harmless(t: Table, rows: seq<Row>, n: nat, half: bool)
    requires n <= |rows| && (half ==> n < |rows|)
  {
    && (forall i :: 0 <= i < n ==> !Tripled(rows[i].key))
    && (half ==> !Tripled(rows[n].key) && Get(t, Fixed(rows[n].key)) == Common.Some(rows[n].val))
  }

  /** What the cut table says about one key. */
  function CutSays(t: Table, rows: seq<Row>, n: nat, half: bool, x: Key): Common.Option<Val>
    requires n <= |rows| && (half ==> n < |rows|)
  {
    if half && x == rows[n].key then Common.None else Expected(t, rows, n, x)
  }

  lemma CutTableSays(t: Table, rows: seq<Row>, n: nat, half: bool, x: Key)
    requires Lists(rows, t) && Separated(t) && n <= |rows| && (half ==> n < |rows|)
    ensures Get(CutTable(t, rows, n, half), x) == CutSays(t, rows, n, half, x)
  {
    hide Expected, AfterRows, Lists;
    PassSays(t, rows, n, x);
  }

  lemma CutSeparated(t: Table, rows: seq<Row>, n: nat, half: bool)
    requires Lists(rows, t) && Separated(t) && n <= |rows| && (half ==> n < |rows|)
    ensures Separated(CutTable(t, rows, n, half))
  {
    hide Lists, Doubled, Bad, Reached, CutTable;
    forall x | x in CutTable(t, rows, n, half)
      ensures SEP in x
    {
      CutTableSays(t, rows, n, half, x);
    }
  }

  /** After a harmless cut every key is shifted as in the original table. */
  lemma HarmlessKeeps(t: Table, rows: seq<Row>, n: nat, half: bool, x: Key)
    requires Lists(rows, t) && Separated(t) && n <= |rows| && (half ==> n < |rows| && Bad(rows[n].key))
    requires Harmless(t, rows, n, half)
    ensures Shifted(CutTable(t, rows, n, half), x) == Shifted(t, x)
  {
    hide CutTable, Lists, Reached, Bad, Fixed, Doubled, Tripled;
    CutSeparated(t, rows, n, half);
    if SEP in x {
      var d := Doubled(x);
      FixedOfDoubled(x);
      CutTableSays(t, rows, n, half, x);
      CutTableSays(t, rows, n, half, d);
      NoneTripled(rows, n, d);
      ReachedIsThere(rows, t, n, d);
      if half {
        HalfRow(t, rows, n, x);
        CutFixed(t, rows, n);
        TripledIs(rows[n].key);
      }
    }
  }

  lemma ReachedIsThere(rows: seq<Row>, t: Table, n: nat, k: Key)
    requires Lists(rows, t) && n <= |rows|
    ensures Reached(rows, n, k) ==> k in t
  {
  }

  /** The row that was deleted: not reached before, and its repaired key is gone
      too if that is bad. */
  lemma HalfRow(t: Table, rows: seq<Row>, n: nat, x: Key)
    requires Lists(rows, t) && Separated(t) && n < |rows| && Bad(rows[n].key) && SEP in x
    ensures !Reached(rows, n, rows[n].key) && t.Keys >= {rows[n].key} && t[rows[n].key] == rows[n].val
    ensures Doubled(x) == rows[n].key ==> x == Fixed(rows[n].key) && x != rows[n].key
    ensures Doubled(x) == rows[n].key && x in t ==> Reached(rows, n, x)
  {
    hide Lists, Bad, Fixed, Doubled;
    ListedRow(rows, t, n);
    NotReachedYet(rows, t, n);
    DoubledOfFixed(rows[n].key);
    FixedOfDoubled(x);
    if Doubled(x) == rows[n].key && x in t {
      ReachedStep(rows, n, Doubled(x));
      ReachedLater(rows, t, n + 1, x);
      ReachedStep(rows, n, x);
    }
  }

  /** What is under the repaired key of the deleted row. */
  lemma CutFixed(t: Table, rows: seq<Row>, n: nat)
    requires Lists(rows, t) && Separated(t) && n < |rows| && Bad(rows[n].key)
    ensures
      var f := Fixed(rows[n].key);
      Get(CutTable(t, rows, n, true), f) == if Bad(f) then Common.None else Get(t, f)
  {
    hide CutTable, Lists, Reached, Bad, Fixed, Doubled;
    var f := Fixed(rows[n].key);
    DoubledOfFixed(rows[n].key);
    CutTableSays(t, rows, n, true, f);
    HalfRow(t, rows, n, f);
  }

  /** A tripled key that was reached is lost by another pass: the last one's
      value is under a bad key, which that pass moves away. */
  lemma TripledLoses(t: Table, rows: seq<Row>, n: nat, half: bool, i: nat)
    requires Lists(rows, t) && Separated(t) && n <= |rows| && (half ==> n < |rows|)
    requires i < n && Tripled(rows[i].key) && forall j :: i < j < n ==> !Tripled(rows[j].key)
    ensures Shifted(CutTable(t, rows, n, half), Fixed(rows[i].key)) != Shifted(t, Fixed(rows[i].key))
  {
    hide CutTable, Bad, Fixed, Doubled, Lists, Separated;
    var k := rows[i].key;
    DoubledOfFixed(k);
    ListedRow(rows, t, i);
    CutTableSays(t, rows, n, half, k);
    LastTripled(t, rows, n, i);
  }

  lemma LastTripled(t: Table, rows: seq<Row>, n: nat, i: nat)
    requires Lists(rows, t) && Separated(t) && n <= |rows|
    requires i < n && Tripled(rows[i].key) && forall j :: i < j < n ==> !Tripled(rows[j].key)
    ensures SEP in rows[i].key && Reached(rows, n, rows[i].key) && !Reached(rows, n, Doubled(rows[i].key))
  {
    hide Bad, Fixed, Doubled;
    var k := rows[i].key;
    DoubledOfFixed(k);
    FixedOfDoubled(k);
    assert Tripled(Doubled(k));
    if Reached(rows, n, Doubled(k)) {
      var j :| 0 <= j < n && rows[j].key == Doubled(k);
      LessIrreflexive(k);
      if j < i {
        LessAsymmetric(k, Doubled(k));
      }
    }
  }

  lemma HalfLoses(t: Table, rows: seq<Row>, n: nat)
    requires Lists(rows, t) && Separated(t) && n < |rows| && Bad(rows[n].key)
    requires Get(CutTable(t, rows, n, true), Fixed(rows[n].key)) != Common.Some(rows[n].val)
    ensures Shifted(CutTable(t, rows, n, true), Fixed(rows[n].key)) != Shifted(t, Fixed(rows[n].key))
  {
    hide CutTable, Bad, Fixed, Doubled, Lists;
    DoubledOfFixed(rows[n].key);
    ListedRow(rows, t, n);
    CutTableSays(t, rows, n, true, rows[n].key);
  }

  /** A whole pass after a cut gives what one whole pass would have given exactly
      if the cut was harmless. */
  lemma CutConvergesIff(t: Table, rows: seq<Row>, n: nat, half: bool, again: seq<Row>)
    requires Lists(rows, t) && Separated(t) && n <= |rows| && (half ==> n < |rows| && Bad(rows[n].key))
    requires Lists(again, CutTable(t, rows, n, half))
    ensures Apply(CutTable(t, rows, n, half), Writes(again)) == Apply(t, Writes(rows)) <==> Harmless(t, rows, n, half)
  {
    hide Lists, Apply, Writes, Shifted, Bad, Fixed, Tripled, CutTable;
    var c := CutTable(t, rows, n, half);
    var one, two := Apply(t, Writes(rows)), Apply(c, Writes(again));
    CutSeparated(t, rows, n, half);
    FullRepair(t, rows);
    FullRepair(c, again);
    if Harmless(t, rows, n, half) {
      forall x
        ensures Get(one, x) == Get(two, x)
      {
        HarmlessKeeps(t, rows, n, half, x);
        assert Get(one, x) == Shifted(t, x) && Get(two, x) == Shifted(c, x);
      }
      SameGets(one, two);
    } else {
      var x := HarmfulLoses(t, rows, n, half);
      assert Get(one, x) == Shifted(t, x) && Get(two, x) == Shifted(c, x);
    }
  }

  lemma HarmfulLoses(t: Table, rows: seq<Row>, n: nat, half: bool) returns (x: Key)
    requires Lists(rows, t) && Separated(t) && n <= |rows| && (half ==> n < |rows| && Bad(rows[n].key))
    requires !Harmless(t, rows, n, half)
    ensures Shifted(CutTable(t, rows, n, half), x) != Shifted(t, x)
  {
    hide Lists, Shifted, Bad, Fixed, Tripled, CutTable;
    if i :| 0 <= i < n && Tripled(rows[i].key) {
      var j := LastOf(rows, n, i);
      TripledLoses(t, rows, n, half, j);
      x := Fixed(rows[j].key);
    } else {
      CutFixed(t, rows, n);
      HalfLoses(t, rows, n) by {
        assert !(!Tripled(rows[n].key) && Get(t, Fixed(rows[n].key)) == Common.Some(rows[n].val));
        TripledIs(rows[n].key);
      }
      x := Fixed(rows[n].key);
    }
  }

  lemma TripledIs(k: Key)
    requires Bad(k)
    ensures Tripled(k) <==> Bad(Fixed(k))
  {
    hide Bad, Fixed;
  }

  lemma {:induction false} LastOf(rows: seq<Row>, n: nat, i: nat) returns (j: nat)
    requires i < n <= |rows| && Tripled(rows[i].key)
    ensures i <= j < n && Tripled(rows[j].key) && forall m :: j < m < n ==> !Tripled(rows[m].key)
    decreases n - i
  {
    hide Tripled;
    if m :| i < m < n && Tripled(rows[m].key) {
      j := LastOf(rows, n, m);
    } else {
      j := i;
    }
  }

  /** A reached key that is not tripled is repaired for good, and its own doubled
      form was not reached. */
  lemma NoneTripled(rows: seq<Row>, n: nat, d: Key)
    requires n <= |rows| && SEP in d && Bad(d) && forall i :: 0 <= i < n ==> !Tripled(rows[i].key)
    ensures Reached(rows, n, d) ==> !Bad(Fixed(d))
    ensures !Reached(rows, n, Doubled(d))
  {
    hide Bad, Fixed, Doubled;
    FixedOfDoubled(d);
    if Reached(rows, n, d) {
      var i :| 0 <= i < n && rows[i].key == d;
      assert !Tripled(rows[i].key);
    }
    assert Tripled(Doubled(d));
  }

  // --------------------------------------------------------------- witnesses

  /** Three separators in a row are too many for one pass. */
  lemma ThreeSeparators(a: Key, b: Key)
    requires SEP !in a
    ensures Tripled(a + ([SEP] + ([SEP] + ([SEP] + b))))
  {
    hide Bad, Fixed;
    FixedParts(a, [SEP] + ([SEP] + b));
    FixedParts(a, [SEP] + b);
  }

  /** A table with such a key is not clean after a whole pass. */
  lemma TripledStaysBad(k: Key, v: Val, u: Table)
    requires Tripled(k) && IsShift(u, map[k := v])
    ensures !Clean(u)
  {
    hide Bad, Fixed, Doubled;
    DoubledOfFixed(k);
    OnePassIsEnoughIff(map[k := v], u);
  }

  /** A process that dies between the two writes of a table's only row loses it
      for good, while a whole pass would have repaired it. */
  lemma TornRowIsLost(k: Key, v: Val)
    requires Bad(k)
    ensures
      var t, rows := map[k := v], [Row(k, v)];
      && Lists(rows, t) && Apply(t, Writes(rows)) == map[Fixed(k) := v]
      && Apply(t, Writes(rows)[..1]) == map[] && Apply(map[], Writes([])) == map[]
  {
    hide Bad, Fixed, Apply;
    var t, rows := map[k := v], [Row(k, v)];
    DoubledOfFixed(k);
    assert rows[0].key == k && Reached(rows, |rows|, k);
    FirstRow(t, rows);
    NothingWritten((t - {k})[Fixed(k) := v], rows[1..]);
    NothingWritten(map[], []);
    assert t - {k} == map[];
    assert Writes(rows) == RowWrites(rows[0]) + Writes(rows[1..]);
    assert Writes(rows)[..1] == [] + [Del(k)];
    ApplyDel(t, [], k);
    NothingApplied(t);
  }

  lemma NothingApplied(t: Table)
    ensures Apply(t, []) == t
  {
  }

  /** The pass itself: a panic on a key without a separator, else the writes. */
  method FixDoubleSeparators(t: Table, rows: seq<Row>) returns (r: Table, panicked: bool)
    ensures panicked <==> exists i :: 0 <= i < |rows| && SEP !in rows[i].key
    ensures r == Apply(t, Writes(rows))
  {
    hide Bad, Fixed, Writes, Apply;
    r, panicked := t, false;
    var i := 0;
    assert rows[0..] == rows;
    while i < |rows|
      invariant 0 <= i <= |rows|
      invariant forall j :: 0 <= j < i ==> SEP in rows[j].key
      invariant Apply(r, Writes(rows[i..])) == Apply(t, Writes(rows))
    {
      var k, v := rows[i].key, rows[i].val;
      assert rows[i..][0] == rows[i] && rows[i..][1..] == rows[i + 1..];
      if SEP !in k {
        NothingWritten(r, rows[i..]);
        return r, true;
      }
      FirstRow(r, rows[i..]);
      if Bad(k) {
        r := r - {k};
        r := r[Fixed(k) := v];
      }
      i := i + 1;
    }
    NothingWritten(r, rows[i..]);
  }

  lemma NothingWritten(t: Table, rows: seq<Row>)
    requires rows == [] || SEP !in rows[0].key
    ensures Apply(t, Writes(rows)) == t
  {
  }

  lemma FirstRow(t: Table, rows: seq<Row>)
    requires rows != [] && SEP in rows[0].key
    ensures
      var r := rows[0];
      Apply(t, Writes(rows)) == Apply(if Bad(r.key) then (t - {r.key})[Fixed(r.key) := r.val] else t, Writes(rows[1..]))
  {
    hide Bad, Fixed;
    assert Writes(rows) == RowWrites(rows[0]) + Writes(rows[1..]);
    hide Writes;
    ApplyConcat(t, RowWrites(rows[0]), Writes(rows[1..]));
    RowApplied(t, rows[0]);
  }

  // ------------------------------------------------- for runs of the migration

  /** The rows of a table as a cursor reads them. */
  function RowsOf(t: Table): (rows: seq<Row>)
    ensures Lists(rows, t)
  {
    var ks := Listing(t.Keys);
    var rows := seq(|ks|, i requires 0 <= i < |ks| => (assert ks[i] in ks; Row(ks[i], t[ks[i]])));
    RowsListed(t, ks, rows);
    rows
  }

  lemma RowsListed(t: Table, ks: seq<Key>, rows: seq<Row>)
    requires Sorted(ks) && (forall k :: k in ks <==> k in t) && |rows| == |ks|
    requires forall i :: 0 <= i < |ks| ==> ks[i] in t && rows[i] == Row(ks[i], t[ks[i]])
    ensures Lists(rows, t)
  {
    hide Less;
    forall k | k in t
      ensures Reached(rows, |rows|, k)
    {
      var i :| 0 <= i < |ks| && ks[i] == k;
      assert rows[i].key == k;
    }
  }

  predicate NoTripled(t: Table) {
    forall k :: k in t ==> !Tripled(k)
  }

  /** A cut pass leaves no key tripled if none was. */
  lemma CutNotTripled(t: Table, rows: seq<Row>, n: nat, half: bool)
    requires Lists(rows, t) && Separated(t) && NoTripled(t) && n <= |rows| && (half ==> n < |rows|)
    ensures NoTripled(CutTable(t, rows, n, half))
  {
    hide CutTable, Lists, Fixed, Doubled, Bad, Separated;
    CutSeparated(t, rows, n, half);
    forall x | x in CutTable(t, rows, n, half)
      ensures !Tripled(x)
    {
      CutTableSays(t, rows, n, half, x);
      if SEP in x && Reached(rows, n, Doubled(x)) {
        ReachedIsThere(rows, t, n, Doubled(x));
        FixedOfDoubled(x);
        assert !Tripled(Doubled(x));
      }
    }
  }

  lemma CutStaysSeparated(t: Table, w: nat)
    requires Separated(t) && w <= |Writes(RowsOf(t))|
    ensures Separated(Apply(t, Writes(RowsOf(t))[..w]))
  {
    var rows := RowsOf(t);
    hide Apply, Writes, CutTable, Lists, Bad, Fixed, Separated, RowsOf;
    var n, half := CutIsTable(t, rows, w);
    CutSeparated(t, rows, n, half);
  }

  /** Where one pass is enough, any cut that does not fall between the two writes
      of a row keeps what every key is shifted to. */
  lemma CutKeepsMeaning(t: Table, w: nat)
    requires Separated(t) && NoTripled(t) && w <= |Writes(RowsOf(t))|
    ensures
      var c := Apply(t, Writes(RowsOf(t))[..w]);
      NoTripled(c) && (!(w > 0 && Writes(RowsOf(t))[w - 1].Del?) ==> forall x :: Shifted(c, x) == Shifted(t, x))
  {
    var rows := RowsOf(t);
    hide Apply, Writes, CutTable, Lists, Bad, Fixed, Separated, RowsOf;
    var n, half := CutIsTable(t, rows, w);
    CutNotTripled(t, rows, n, half);
    if !half {
      forall i | 0 <= i < n
        ensures !Tripled(rows[i].key)
      {
        ListedRow(rows, t, i);
      }
      forall x
        ensures Shifted(CutTable(t, rows, n, half), x) == Shifted(t, x)
      {
        HarmlessKeeps(t, rows, n, half, x);
      }
    }
  }

  /** What a whole pass leaves, a further pass would leave alone. */
  lemma WholeIsSettled(t: Table, u: Table)
    requires Separated(t) && NoTripled(t) && Separated(u) && IsShift(u, t)
    ensures IsShift(u, u)
  {
    hide Bad, Fixed, Doubled, Tripled;
    OnePassIsEnoughIff(t, u);
    forall x
      ensures Get(u, x) == Shifted(u, x)
    {
      if SEP in x {
        FixedOfDoubled(x);
      }
    }
  }

  lemma {:induction false} EndsWithPut(rows: seq<Row>)
    ensures Writes(rows) != [] ==> Writes(rows)[|Writes(rows)| - 1].Put?
  {
    hide Bad, Fixed;
    if rows != [] && SEP in rows[0].key {
      EndsWithPut(rows[1..]);
    }
  }

  /** A cut between the two writes of a row changes nothing in the end exactly if
      the repaired key already has the row's value. */
  lemma TornIff(t: Table, w: nat)
    requires Separated(t) && NoTripled(t) && 0 < w <= |Writes(RowsOf(t))| && Writes(RowsOf(t))[w - 1].Del?
    ensures
      var c, k := Apply(t, Writes(RowsOf(t))[..w]), Writes(RowsOf(t))[w - 1].key;
      k in t && ((forall x :: Shifted(c, x) == Shifted(t, x)) <==> Get(t, Fixed(k)) == Get(t, k))
  {
    var rows := RowsOf(t);
    hide Apply, Writes, CutTable, Lists, Bad, Fixed, Separated, RowsOf, Shifted;
    var n, half := CutIsTable(t, rows, w);
    ListedRow(rows, t, n);
    forall i | 0 <= i < n
      ensures !Tripled(rows[i].key)
    {
      ListedRow(rows, t, i);
    }
    if Harmless(t, rows, n, half) {
      forall x
        ensures Shifted(CutTable(t, rows, n, half), x) == Shifted(t, x)
      {
        HarmlessKeeps(t, rows, n, half, x);
      }
    } else {
      var x := HarmfulLoses(t, rows, n, half);
    }
  }

  /** From t to u bad rows only went away, and keys without a bad row are shifted
      to what they were: a value that was lost does not come back. */
  ghost predicate Later(t: Table, u: Table) {
    forall g :: SEP in g ==>
      && (Doubled(g) in u ==> Doubled(g) in t && u[Doubled(g)] == t[Doubled(g)])
      && (Doubled(g) !in t ==> Shifted(u, g) == Shifted(t, g))
  }

  lemma LaterTransitive(t: Table, u: Table, v: Table)
    requires Later(t, u) && Later(u, v)
    ensures Later(t, v)
  {
    hide Shifted, Doubled;
  }

  /** What is shifted differently now stays so. */
  lemma LossStays(t: Table, u: Table, v: Table)
    requires Later(t, u) && Later(u, v) && Separated(t) && Separated(u) && Separated(v)
    requires forall x :: Shifted(v, x) == Shifted(t, x)
    ensures forall x :: Shifted(u, x) == Shifted(t, x)
  {
    hide Doubled, Bad;
    forall x
      ensures Shifted(u, x) == Shifted(t, x)
    {
      assert Shifted(v, x) == Shifted(t, x);
      if SEP in x && Doubled(x) !in u {
        assert Shifted(v, x) == Shifted(u, x);
      }
    }
  }

  /** Every cut of a pass is later than its start. */
  lemma CutIsLater(t: Table, w: nat)
    requires Separated(t) && NoTripled(t) && w <= |Writes(RowsOf(t))|
    ensures Later(t, Apply(t, Writes(RowsOf(t))[..w]))
  {
    var rows := RowsOf(t);
    hide Apply, Writes, CutTable, Lists, Bad, Fixed, Separated, RowsOf, Doubled, Shifted;
    var n, half := CutIsTable(t, rows, w);
    forall g | SEP in g
      ensures CutKeyLater(t, CutTable(t, rows, n, half), g)
    {
      CutKey(t, rows, n, half, g);
    }
  }

  ghost predicate CutKeyLater(t: Table, u: Table, g: Key)
    requires SEP in g
  {
    && (Doubled(g) in u ==> Doubled(g) in t && u[Doubled(g)] == t[Doubled(g)])
    && (Doubled(g) !in t ==> Shifted(u, g) == Shifted(t, g))
  }

  lemma CutKey(t: Table, rows: seq<Row>, n: nat, half: bool, g: Key)
    requires Lists(rows, t) && Separated(t) && NoTripled(t) && n <= |rows| && (half ==> n < |rows| && Bad(rows[n].key))
    requires SEP in g
    ensures CutKeyLater(t, CutTable(t, rows, n, half), g)
  {
    hide CutTable, Lists, Reached, Bad, Fixed, Doubled, Tripled;
    var d := Doubled(g);
    FixedOfDoubled(g);
    CutTableSays(t, rows, n, half, g);
    CutTableSays(t, rows, n, half, d);
    forall i | 0 <= i < n
      ensures !Tripled(rows[i].key)
    {
      ListedRow(rows, t, i);
    }
    NoneTripled(rows, n, d);
    ReachedIsThere(rows, t, n, d);
  }

  lemma SeparatedRows(rows: seq<Row>, t: Table)
    requires Lists(rows, t)
    ensures Separated(t) <==> forall i :: 0 <= i < |rows| ==> SEP in rows[i].key
  {
    forall k | k in t && SEP !in k
      ensures exists i :: 0 <= i < |rows| && SEP !in rows[i].key
    {
      assert Reached(rows, |rows|, k);
    }
  }

  predicate DelsSeparated(ws: seq<Write>) {
    forall i :: 0 <= i < |ws| && ws[i].Del? ==> SEP in ws[i].key
  }

  lemma {:induction false} DeletesSeparated(rows: seq<Row>)
    ensures DelsSeparated(Writes(rows))
  {
    hide Bad, Fixed;
    if rows != [] && SEP in rows[0].key {
      DeletesSeparated(rows[1..]);
    }
  }

  lemma {:induction false} KeepsUnseparated(t: Table, ws: seq<Write>)
    requires !Separated(t) && DelsSeparated(ws)
    ensures !Separated(Apply(t, ws))
  {
    if ws != [] {
      KeepsUnseparated(t, ws[..|ws| - 1]);
      var k :| k in Apply(t, ws[..|ws| - 1]) && SEP !in k;
      assert k in Apply(t, ws);
    }
  }

  /** A key the pass panics on is never deleted. */
  lemma PanicStays(t: Table, rows: seq<Row>, n: nat)
    requires !Separated(t) && n <= |Writes(rows)|
    ensures !Separated(Apply(t, Writes(rows)[..n]))
  {
    hide Writes, Apply, Separated;
    DeletesSeparated(rows);
    KeepsUnseparated(t, Writes(rows)[..n]);
  }
}
