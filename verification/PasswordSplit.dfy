/** The migration that moves remote users out of the password table and marks
    local users without a password as deactivated. */
module PasswordSplit {
  import opened Bytes

  type User = seq<byte>
  type Hash = string

  datatype Tables = Tables(passwords: map<User, Hash>, remote: set<User>, deactivated: set<User>)

  /** Who is local to this server, and which local users never have a password:
      those of application services, and the server's own. */
  datatype Kinds = Kinds(local: set<User>, exempt: set<User>)

  datatype Row = Row(user: User, hash: Hash)

  datatype Write = AddRemote(u: User) | DropPassword(u: User) | Deactivate(u: User)

  function Apply(t: Tables, w: Write): (r: Tables) {
    match w
    case AddRemote(u) => t.(remote := t.remote + {u})
    case DropPassword(u) => t.(passwords := t.passwords - {u})
    case Deactivate(u) => t.(deactivated := t.deactivated + {u})
  }

  function ApplyAll(t: Tables, ws: seq<Write>): (r: Tables) {
    if ws == [] then t else Apply(ApplyAll(t, ws[..|ws| - 1]), ws[|ws| - 1])
  }

  /** A remote user with a password: the migration panics. */
  predicate Impossible(k: Kinds, r: Row) {
    r.user !in k.local && r.hash != ""
  }

  function RowWrites(k: Kinds, r: Row): (ws: seq<Write>) {
    if r.user !in k.local then [AddRemote(r.user), DropPassword(r.user)]
    else if r.hash == "" && r.user !in k.exempt then [Deactivate(r.user)]
    else []
  }

  /** The writes of a pass up to the first impossible row. */
  function Writes(k: Kinds, rows: seq<Row>): (ws: seq<Write>) {
    if rows == [] || Impossible(k, rows[0]) then [] else RowWrites(k, rows[0]) + Writes(k, rows[1..])
  }

  /** What the migration is for. */
  function Split(k: Kinds, t: Tables): (r: Tables) {
    Tables(
      map u | u in t.passwords && u in k.local :: t.passwords[u],
      t.remote + (set u | u in t.passwords && u !in k.local),
      t.deactivated + (set u | u in t.passwords && u in k.local && t.passwords[u] == "" && u !in k.exempt))
  }

  /** No user is lost: everyone who was in a table of users still is in one, and
      local passwords are untouched. */
  lemma SplitKeepsUsers(k: Kinds, t: Tables)
    ensures Split(k, t).passwords.Keys + Split(k, t).remote == t.passwords.Keys + t.remote
    ensures Split(k, t).passwords.Keys == t.passwords.Keys * k.local
    ensures forall u :: u in t.passwords && u in k.local ==> Split(k, t).passwords[u] == t.passwords[u]
    ensures Split(k, Split(k, t)) == Split(k, t)
  {
    var s := Split(k, t);
    assert Split(k, s).passwords == s.passwords;
    assert Split(k, s).remote == s.remote;
    assert Split(k, s).deactivated == s.deactivated;
  }

  /** The rows ahead are in the table as they were read. */
  predicate Ahead(t: Tables, rows: seq<Row>) {
    && (forall i :: 0 <= i < |rows| ==> rows[i].user in t.passwords && t.passwords[rows[i].user] == rows[i].hash)
    && forall i, j :: 0 <= i < j < |rows| ==> rows[i].user != rows[j].user
  }

  predicate Lists(rows: seq<Row>, t: Tables) {
    Ahead(t, rows) && forall u :: u in t.passwords ==> Row(u, t.passwords[u]) in rows
  }

  lemma AddRemoteKeeps(k: Kinds, t: Tables, u: User)
    requires u in t.passwords && u !in k.local
    ensures Split(k, Apply(t, AddRemote(u))) == Split(k, t)
  {
    assert Split(k, Apply(t, AddRemote(u))).remote == Split(k, t).remote;
  }

  lemma DropPasswordKeeps(k: Kinds, t: Tables, u: User)
    requires u !in k.local && (u in t.passwords ==> u in t.remote)
    ensures Split(k, Apply(t, DropPassword(u))) == Split(k, t)
  {
    var s := Apply(t, DropPassword(u));
    assert Split(k, s).passwords == Split(k, t).passwords;
    assert Split(k, s).remote == Split(k, t).remote;
    assert Split(k, s).deactivated == Split(k, t).deactivated;
  }

  lemma DeactivateKeeps(k: Kinds, t: Tables, u: User)
    requires u in t.passwords && u in k.local && t.passwords[u] == "" && u !in k.exempt
    ensures Split(k, Apply(t, Deactivate(u))) == Split(k, t)
  {
    assert Split(k, Apply(t, Deactivate(u))).deactivated == Split(k, t).deactivated;
  }

  /** One row, cut after any number of its writes, keeps the meaning. */
  lemma RowKeeps(k: Kinds, t: Tables, r: Row, n: nat)
    requires r.user in t.passwords && t.passwords[r.user] == r.hash && n <= |RowWrites(k, r)|
    ensures Split(k, ApplyAll(t, RowWrites(k, r)[..n])) == Split(k, t)
    ensures forall u :: u != r.user ==>
      (u in ApplyAll(t, RowWrites(k, r)[..n]).passwords <==> u in t.passwords)
    ensures forall u :: u != r.user && u in t.passwords ==>
      ApplyAll(t, RowWrites(k, r)[..n]).passwords[u] == t.passwords[u]
  {
    var ws := RowWrites(k, r);
    assert ApplyAll(t, []) == t;
    hide Split;
    if n >= 1 {
      assert ws[..1][..0] == [] && ApplyAll(t, ws[..1]) == Apply(t, ws[0]);
      if r.user !in k.local {
        AddRemoteKeeps(k, t, r.user);
        DropPasswordKeeps(k, Apply(t, ws[0]), r.user);
        assert ws[..2][..1] == ws[..1];
      } else {
        DeactivateKeeps(k, t, r.user);
      }
    }
  }

  lemma {:induction false} ApplyConcat(t: Tables, a: seq<Write>, b: seq<Write>)
    ensures ApplyAll(t, a + b) == ApplyAll(ApplyAll(t, a), b)
  {
    if b == [] {
      assert a + b == a;
    } else {
      ApplyConcat(t, a, b[..|b| - 1]);
      assert (a + b)[..|a + b| - 1] == a + b[..|b| - 1];
    }
  }

  /** The remaining rows are still ahead after the first one's writes. */
  lemma StillAhead(k: Kinds, t: Tables, rows: seq<Row>)
    requires rows != [] && Ahead(t, rows)
    ensures Ahead(ApplyAll(t, RowWrites(k, rows[0])), rows[1..])
  {
    var ws := RowWrites(k, rows[0]);
    hide Split, RowWrites;
    RowKeeps(k, t, rows[0], |ws|);
    assert ws[..|ws|] == ws;
  }

  /** Cutting the pass after any number of writes changes no meaning. */
  lemma {:induction false} CutKeepsMeaning(k: Kinds, t: Tables, rows: seq<Row>, n: nat)
    requires Ahead(t, rows) && n <= |Writes(k, rows)|
    ensures Split(k, ApplyAll(t, Writes(k, rows)[..n])) == Split(k, t)
    decreases |rows|
  {
    hide Split, RowWrites;
    if rows == [] || Impossible(k, rows[0]) {
      assert Writes(k, rows)[..n] == [];
    } else {
      var first, rest := RowWrites(k, rows[0]), Writes(k, rows[1..]);
      if n <= |first| {
        RowKeeps(k, t, rows[0], n);
        assert (first + rest)[..n] == first[..n];
      } else {
        RowKeeps(k, t, rows[0], |first|);
        assert first[..|first|] == first;
        StillAhead(k, t, rows);
        CutKeepsMeaning(k, ApplyAll(t, first), rows[1..], n - |first|);
        assert (first + rest)[..n] == first + rest[..n - |first|];
        ApplyConcat(t, first, rest[..n - |first|]);
      }
    }
  }

  /** The row is dealt with: a remote user is gone, a local one is marked. */
  predicate Settled(k: Kinds, t: Tables, u: User) {
    u in t.passwords ==>
      u in k.local && (t.passwords[u] == "" && u !in k.exempt ==> u in t.deactivated)
  }

  lemma RowSettles(k: Kinds, t: Tables, r: Row, u: User)
    requires r.user in t.passwords && t.passwords[r.user] == r.hash
    requires u == r.user || Settled(k, t, u)
    ensures Settled(k, ApplyAll(t, RowWrites(k, r)), u)
  {
    var ws := RowWrites(k, r);
    assert ApplyAll(t, []) == t;
    if |ws| >= 1 {
      assert ws[..1][..0] == [] && ApplyAll(t, ws[..1]) == Apply(t, ws[0]);
      assert |ws| == 1 ==> ws[..1] == ws;
      assert |ws| == 2 ==> ws[..2] == ws && ws[..2][..1] == ws[..1];
    }
  }

  lemma SettledIsSplit(k: Kinds, t: Tables)
    requires forall u :: u in t.passwords ==> Settled(k, t, u)
    ensures Split(k, t) == t
  {
    assert Split(k, t).passwords == t.passwords;
    assert Split(k, t).remote == t.remote;
    assert Split(k, t).deactivated == t.deactivated;
  }

  /** A pass without impossible rows settles every user. */
  lemma {:induction false} PassSettles(k: Kinds, t: Tables, rows: seq<Row>)
    requires Ahead(t, rows) && forall i :: 0 <= i < |rows| ==> !Impossible(k, rows[i])
    requires forall u :: u in t.passwords ==> Settled(k, t, u) || Row(u, t.passwords[u]) in rows
    ensures Split(k, ApplyAll(t, Writes(k, rows))) == ApplyAll(t, Writes(k, rows))
    decreases |rows|
  {
    if rows == [] {
      SettledIsSplit(k, t);
    } else {
      var r, first := rows[0], RowWrites(k, rows[0]);
      var s := ApplyAll(t, first);
      RowKeeps(k, t, r, |first|);
      assert first[..|first|] == first;
      StillAhead(k, t, rows);
      hide Split, RowWrites, Writes;
      forall u | u in s.passwords
        ensures Settled(k, s, u) || Row(u, s.passwords[u]) in rows[1..]
      {
        if u == r.user || Settled(k, t, u) {
          RowSettles(k, t, r, u);
        } else {
          assert Row(u, s.passwords[u]) in rows;
        }
      }
      PassSettles(k, s, rows[1..]);
      assert Writes(k, rows) == first + Writes(k, rows[1..]) by {
        WritesCons(k, rows);
      }
      ApplyConcat(t, first, Writes(k, rows[1..]));
    }
  }

  lemma WritesCons(k: Kinds, rows: seq<Row>)
    requires rows != [] && !Impossible(k, rows[0])
    ensures Writes(k, rows) == RowWrites(k, rows[0]) + Writes(k, rows[1..])
  {
  }

  /** A pass over a listing of the tables before, cut after some writes, can
      leave the tables after. */
  ghost predicate CanLeave(k: Kinds, before: Tables, after: Tables) {
    exists rows, n: nat :: Lists(rows, before) && CutPass(k, before, rows, n, after)
  }

  ghost predicate CutPass(k: Kinds, before: Tables, rows: seq<Row>, n: nat, after: Tables) {
    n <= |Writes(k, rows)| && after == ApplyAll(before, Writes(k, rows)[..n])
  }

  /** The tables after each of a number of interrupted passes. */
  ghost predicate Interrupted(k: Kinds, ts: seq<Tables>) {
    ts != [] && forall i :: 0 <= i < |ts| - 1 ==> CanLeave(k, ts[i], ts[i + 1])
  }

  lemma {:induction false} InterruptionsKeepMeaning(k: Kinds, ts: seq<Tables>)
    requires Interrupted(k, ts)
    ensures Split(k, ts[|ts| - 1]) == Split(k, ts[0])
    decreases |ts|
  {
    hide Split, Writes, Lists;
    var n := |ts| - 1;
    if n > 0 {
      InterruptionsKeepMeaning(k, ts[..n]);
      assert CanLeave(k, ts[n - 1], ts[n - 1 + 1]);
      var rows, m: nat :| Lists(rows, ts[n - 1]) && CutPass(k, ts[n - 1], rows, m, ts[n]);
      ListsAhead(rows, ts[n - 1]);
      CutKeepsMeaning(k, ts[n - 1], rows, m);
    }
  }

  lemma ListsAhead(rows: seq<Row>, t: Tables)
    requires Lists(rows, t)
    ensures Ahead(t, rows)
  {
  }

  /** However often it was interrupted, a whole pass gives the split of the
      original tables. */
  lemma {:induction false} RestartsConverge(k: Kinds, ts: seq<Tables>, rows: seq<Row>)
    requires Interrupted(k, ts) && Lists(rows, ts[|ts| - 1])
    requires forall i :: 0 <= i < |rows| ==> !Impossible(k, rows[i])
    ensures ApplyAll(ts[|ts| - 1], Writes(k, rows)) == Split(k, ts[0])
  {
    var last := ts[|ts| - 1];
    hide Split, RowWrites, Writes;
    InterruptionsKeepMeaning(k, ts);
    PassSettles(k, last, rows);
    CutKeepsMeaning(k, last, rows, |Writes(k, rows)|);
    assert Writes(k, rows)[..|Writes(k, rows)|] == Writes(k, rows);
  }

  /** A whole pass over a listing without impossible rows leaves split tables. */
  lemma WholePass(k: Kinds, t: Tables, rows: seq<Row>)
    requires Lists(rows, t) && Possible(k, t)
    ensures Split(k, ApplyAll(t, Writes(k, rows))) == ApplyAll(t, Writes(k, rows))
  {
    hide Split, Writes, ApplyAll;
    forall i | 0 <= i < |rows|
      ensures !Impossible(k, rows[i])
    {
      assert rows[i] == Row(rows[i].user, t.passwords[rows[i].user]);
    }
    PassSettles(k, t, rows);
  }

  lemma ApplyOne(t: Tables, w: Write)
    ensures ApplyAll(t, [w]) == Apply(t, w)
  {
    assert [w][..0] == [] && ApplyAll(t, []) == t;
  }

  /** The rows of the password table as a cursor reads them. */
  function RowsOf(t: Tables): (rows: seq<Row>)
    ensures Lists(rows, t)
  {
    var ks := Listing(t.passwords.Keys);
    var rows := seq(|ks|, i requires 0 <= i < |ks| => (assert ks[i] in ks; Row(ks[i], t.passwords[ks[i]])));
    RowsListed(t, ks, rows);
    rows
  }

  lemma RowsListed(t: Tables, ks: seq<User>, rows: seq<Row>)
    requires Sorted(ks) && (forall k :: k in ks <==> k in t.passwords) && |rows| == |ks|
    requires forall i :: 0 <= i < |ks| ==> ks[i] in t.passwords && rows[i] == Row(ks[i], t.passwords[ks[i]])
    ensures Lists(rows, t)
  {
    hide Less;
    forall i, j | 0 <= i < j < |rows|
      ensures rows[i].user != rows[j].user
    {
      SortedIsDistinct(ks, i, j);
    }
    forall u | u in t.passwords
      ensures Row(u, t.passwords[u]) in rows
    {
      var i :| 0 <= i < |ks| && ks[i] == u;
      assert rows[i] == Row(u, t.passwords[u]);
    }
  }

  /** No remote user has a password. */
  predicate Possible(k: Kinds, t: Tables) {
    forall u :: u in t.passwords ==> !Impossible(k, Row(u, t.passwords[u]))
  }

  lemma PossibleRows(k: Kinds, t: Tables, rows: seq<Row>)
    requires Lists(rows, t)
    ensures Possible(k, t) <==> forall i :: 0 <= i < |rows| ==> !Impossible(k, rows[i])
  {
    hide Impossible;
    forall i | 0 <= i < |rows|
      ensures rows[i] == Row(rows[i].user, t.passwords[rows[i].user])
    {
    }
    forall u | u in t.passwords
      ensures exists i :: 0 <= i < |rows| && rows[i] == Row(u, t.passwords[u])
    {
      assert Row(u, t.passwords[u]) in rows;
    }
  }

  /** The writes leave a user's password alone. */
  predicate Spares(ws: seq<Write>, u: User) {
    forall i :: 0 <= i < |ws| ==> ws[i] != DropPassword(u)
  }

  lemma {:induction false} ImpossibleIsSpared(k: Kinds, t: Tables, rows: seq<Row>, u: User)
    requires Ahead(t, rows) && u in t.passwords && Impossible(k, Row(u, t.passwords[u]))
    ensures Spares(Writes(k, rows), u)
  {
    if rows != [] && !Impossible(k, rows[0]) {
      ImpossibleIsSpared(k, t, rows[1..], u);
    }
  }

  lemma {:induction false} SparedStays(t: Tables, ws: seq<Write>, u: User)
    requires Spares(ws, u) && u in t.passwords
    ensures u in ApplyAll(t, ws).passwords && ApplyAll(t, ws).passwords[u] == t.passwords[u]
  {
    if ws != [] {
      SparedStays(t, ws[..|ws| - 1], u);
    }
  }

  /** A row the pass panics on is never removed. */
  lemma PanicStays(k: Kinds, t: Tables, rows: seq<Row>, n: nat)
    requires Ahead(t, rows) && !Possible(k, t) && n <= |Writes(k, rows)|
    ensures !Possible(k, ApplyAll(t, Writes(k, rows)[..n]))
  {
    hide Writes, ApplyAll, Impossible;
    var u :| u in t.passwords && Impossible(k, Row(u, t.passwords[u]));
    ImpossibleIsSpared(k, t, rows, u);
    SparedStays(t, Writes(k, rows)[..n], u);
  }

  /** The pass only ever takes rows away from the password table. */
  lemma {:induction false} WritesShrink(k: Kinds, t: Tables, ws: seq<Write>)
    requires Possible(k, t)
    ensures Possible(k, ApplyAll(t, ws))
  {
    if ws != [] {
      WritesShrink(k, t, ws[..|ws| - 1]);
    }
  }

  /** The three tables, as the pass changes them. */
  class UserTables {
    var passwords: map<User, Hash>
    var remote: set<User>
    var deactivated: set<User>

    ghost function State(): (t: Tables)
      reads this
    {
      Tables(passwords, remote, deactivated)
    }

    constructor (t: Tables)
      ensures State() == t
    {
      passwords, remote, deactivated := t.passwords, t.remote, t.deactivated;
    }

    /** The pass over the rows of the password table; it panics on a remote
        user that has a password. */
    method SplitPasswords(k: Kinds, rows: seq<Row>) returns (moved: nat, panicked: bool)
      modifies this
      ensures State() == ApplyAll(old(State()), Writes(k, rows))
      ensures panicked <==> exists i :: 0 <= i < |rows| && Impossible(k, rows[i])
      ensures !panicked ==> moved == RemoteCount(k, rows)
    {
      hide Writes, ApplyAll, RowWrites;
      moved, panicked := 0, false;
      assert rows[0..] == rows;
      for i := 0 to |rows|
        invariant ApplyAll(State(), Writes(k, rows[i..])) == ApplyAll(old(State()), Writes(k, rows))
        invariant forall j :: 0 <= j < i ==> !Impossible(k, rows[j])
        invariant moved + RemoteCount(k, rows[i..]) == RemoteCount(k, rows)
      {
        var r := rows[i];
        assert rows[i..][0] == r && rows[i..][1..] == rows[i + 1..];
        if Impossible(k, r) {
          Stuck(k, State(), rows[i..]);
          return moved, true;
        }
        StepRow(k, State(), rows[i..]);
        if r.user !in k.local {
          remote := remote + {r.user};
          passwords := passwords - {r.user};
          moved := moved + 1;
        } else if r.hash == "" {
          if r.user !in k.exempt {
            deactivated := deactivated + {r.user};
          }
        }
      }
      Stuck(k, State(), rows[|rows|..]);
    }
  }

  function RemoteCount(k: Kinds, rows: seq<Row>): (n: nat) {
    if rows == [] then 0 else (if rows[0].user !in k.local then 1 else 0) + RemoteCount(k, rows[1..])
  }

  lemma Stuck(k: Kinds, t: Tables, rows: seq<Row>)
    requires rows == [] || Impossible(k, rows[0])
    ensures ApplyAll(t, Writes(k, rows)) == t
  {
  }

  /** The tables after one row. */
  function AfterRow(k: Kinds, t: Tables, r: Row): (s: Tables) {
    if r.user !in k.local then Tables(t.passwords - {r.user}, t.remote + {r.user}, t.deactivated)
    else if r.hash == "" && r.user !in k.exempt then t.(deactivated := t.deactivated + {r.user})
    else t
  }

  lemma StepRow(k: Kinds, t: Tables, rows: seq<Row>)
    requires rows != [] && !Impossible(k, rows[0])
    ensures ApplyAll(t, Writes(k, rows)) == ApplyAll(AfterRow(k, t, rows[0]), Writes(k, rows[1..]))
  {
    WritesCons(k, rows);
    RowApplied(k, t, rows[0]);
    ApplyConcat(t, RowWrites(k, rows[0]), Writes(k, rows[1..]));
  }

  lemma RowApplied(k: Kinds, t: Tables, r: Row)
    ensures ApplyAll(t, RowWrites(k, r)) == AfterRow(k, t, r)
  {
    var ws := RowWrites(k, r);
    assert ApplyAll(t, []) == t;
    if |ws| >= 1 {
      assert ws[..1][..0] == [] && ApplyAll(t, ws[..1]) == Apply(t, ws[0]);
      assert |ws| == 1 ==> ws[..1] == ws;
      assert |ws| == 2 ==> ws[..2] == ws && ws[..2][..1] == ws[..1];
    }
  }
}
