/** The tables the repairs work on, and what each repair does to them when it is
    cut after any of its writes. */
module MigrationTables {
  import Bytes
  import DoubleSeparatorRepair
  import KeyRepairs
  import PasswordSplit
  import ReceiptRepair

  datatype Marker =
    | Sha256Media
    | BadDoubleSeparator
    | RoomUserIdJoined
    | ReferencedEvents
    | ReadReceipts
    | CorruptProfileFields
    | LeftState
    | LocalInviteState
    | SplitUserIdPassword
    | DropSyncTokens

  /** The four tables. No migration changes who is local, which `kinds` says, nor
      what the joined and left members of the rooms are, which `fixMembers` goes
      by: the writes with which the members' migration corrects the joined table,
      an unknown function of that table here. */
  datatype Tables = Tables(
    joined: DoubleSeparatorRepair.Table,
    referenced: set<KeyRepairs.Key>,
    receipts: ReceiptRepair.ReceiptTable,
    users: PasswordSplit.Tables,
    kinds: PasswordSplit.Kinds,
    fixMembers: DoubleSeparatorRepair.Table -> seq<DoubleSeparatorRepair.Write>)

  /** One write to one table. */
  datatype TableWrite =
    | Joined(jw: DoubleSeparatorRepair.Write)
    | Referenced(rw: KeyRepairs.Write)
    | DropReceipt(receipt: ReceiptRepair.Receipt)
    | Users(uw: PasswordSplit.Write)

  function Write(t: Tables, w: TableWrite): Tables {
    match w
    case Joined(jw) => t.(joined := DoubleSeparatorRepair.Apply(t.joined, [jw]))
    case Referenced(rw) => t.(referenced := KeyRepairs.Apply(t.referenced, [rw]))
    case DropReceipt(r) => t.(receipts := ReceiptRepair.Without(t.receipts, r))
    case Users(uw) => t.(users := PasswordSplit.Apply(t.users, uw))
  }

  function WriteAll(t: Tables, ws: seq<TableWrite>): Tables
    decreases |ws|
  {
    if ws == [] then t else WriteAll(Write(t, ws[0]), ws[1..])
  }

  // ------------------------------------------------------ the writes of a repair

  function AsJoined(ws: seq<DoubleSeparatorRepair.Write>): (r: seq<TableWrite>)
    ensures |r| == |ws| && forall i :: 0 <= i < |ws| ==> r[i] == Joined(ws[i])
  {
    seq(|ws|, i requires 0 <= i < |ws| => Joined(ws[i]))
  }

  function AsReferenced(ws: seq<KeyRepairs.Write>): (r: seq<TableWrite>)
    ensures |r| == |ws| && forall i :: 0 <= i < |ws| ==> r[i] == Referenced(ws[i])
  {
    seq(|ws|, i requires 0 <= i < |ws| => Referenced(ws[i]))
  }

  function AsReceipts(rs: seq<ReceiptRepair.Receipt>): (r: seq<TableWrite>)
    ensures |r| == |rs| && forall i :: 0 <= i < |rs| ==> r[i] == DropReceipt(rs[i])
  {
    seq(|rs|, i requires 0 <= i < |rs| => DropReceipt(rs[i]))
  }

  function AsUsers(ws: seq<PasswordSplit.Write>): (r: seq<TableWrite>)
    ensures |r| == |ws| && forall i :: 0 <= i < |ws| ==> r[i] == Users(ws[i])
  {
    seq(|ws|, i requires 0 <= i < |ws| => Users(ws[i]))
  }

  /** All writes of a migration to these tables, in order. The others have none. */
  function JobWrites(t: Tables, m: Marker): seq<TableWrite> {
    match m
    case BadDoubleSeparator =>
      AsJoined(DoubleSeparatorRepair.Writes(DoubleSeparatorRepair.RowsOf(t.joined)))
    case RoomUserIdJoined => AsJoined(t.fixMembers(t.joined))
    case ReferencedEvents => AsReferenced(KeyRepairs.Writes(Bytes.Listing(t.referenced)))
    case ReadReceipts => AsReceipts(ReceiptRepair.Dups(t.receipts, ReceiptRepair.Nothing))
    case SplitUserIdPassword => AsUsers(PasswordSplit.Writes(t.kinds, PasswordSplit.RowsOf(t.users)))
    case _ => []
  }

  /** Whether a repair panics after its writes. */
  predicate JobPanics(t: Tables, m: Marker) {
    match m
    case BadDoubleSeparator => !DoubleSeparatorRepair.Separated(t.joined)
    case ReferencedEvents => !KeyRepairs.AllRepairable(t.referenced)
    case SplitUserIdPassword => !PasswordSplit.Possible(t.kinds, t.users)
    case _ => false
  }

  lemma {:induction false} WriteJoined(t: Tables, ws: seq<DoubleSeparatorRepair.Write>)
    ensures WriteAll(t, AsJoined(ws)) == t.(joined := DoubleSeparatorRepair.Apply(t.joined, ws))
    decreases |ws|
  {
    if ws != [] {
      var t1 := Write(t, Joined(ws[0]));
      WriteJoined(t1, ws[1..]);
      assert AsJoined(ws)[1..] == AsJoined(ws[1..]);
      DoubleSeparatorRepair.ApplyConcat(t.joined, [ws[0]], ws[1..]);
      assert [ws[0]] + ws[1..] == ws;
      hide DoubleSeparatorRepair.Apply;
    }
  }

  lemma {:induction false} WriteReferenced(t: Tables, ws: seq<KeyRepairs.Write>)
    ensures WriteAll(t, AsReferenced(ws)) == t.(referenced := KeyRepairs.Apply(t.referenced, ws))
    decreases |ws|
  {
    if ws != [] {
      var t1 := Write(t, Referenced(ws[0]));
      WriteReferenced(t1, ws[1..]);
      assert AsReferenced(ws)[1..] == AsReferenced(ws[1..]);
      KeyRepairs.ApplyConcat(t.referenced, [ws[0]], ws[1..]);
      assert [ws[0]] + ws[1..] == ws;
      hide KeyRepairs.Apply;
    }
  }

  lemma {:induction false} WriteReceipts(t: Tables, ds: seq<ReceiptRepair.Receipt>)
    ensures WriteAll(t, AsReceipts(ds)) == t.(receipts := ReceiptRepair.DropAll(t.receipts, ds))
    decreases |ds|
  {
    if ds != [] {
      WriteReceipts(Write(t, DropReceipt(ds[0])), ds[1..]);
      assert AsReceipts(ds)[1..] == AsReceipts(ds[1..]);
    }
  }

  lemma {:induction false} WriteUsers(t: Tables, ws: seq<PasswordSplit.Write>)
    ensures WriteAll(t, AsUsers(ws)) == t.(users := PasswordSplit.ApplyAll(t.users, ws))
    decreases |ws|
  {
    if ws != [] {
      var t1 := Write(t, Users(ws[0]));
      WriteUsers(t1, ws[1..]);
      assert AsUsers(ws)[1..] == AsUsers(ws[1..]);
      PasswordSplit.ApplyConcat(t.users, [ws[0]], ws[1..]);
      assert [ws[0]] + ws[1..] == ws;
      PasswordSplit.ApplyOne(t.users, ws[0]);
      hide PasswordSplit.ApplyAll, PasswordSplit.Apply;
    }
  }

  // ------------------------------------------------------- what a repair is for

  /** The repair of a has the same result as that of b. */
  ghost predicate SameTarget(m: Marker, a: Tables, b: Tables) {
    match m
    case BadDoubleSeparator =>
      forall x :: DoubleSeparatorRepair.Shifted(a.joined, x) == DoubleSeparatorRepair.Shifted(b.joined, x)
    case ReferencedEvents => KeyRepairs.Repaired(a.referenced) == KeyRepairs.Repaired(b.referenced)
    case ReadReceipts =>
      ReceiptRepair.Keep(a.receipts, ReceiptRepair.Nothing) == ReceiptRepair.Keep(b.receipts, ReceiptRepair.Nothing)
    case SplitUserIdPassword =>
      a.kinds == b.kinds && PasswordSplit.Split(a.kinds, a.users) == PasswordSplit.Split(b.kinds, b.users)
    case _ => true
  }

  /** b's table is what the repair is to make of a's. */
  ghost predicate IsTarget(m: Marker, a: Tables, b: Tables) {
    match m
    case BadDoubleSeparator => DoubleSeparatorRepair.IsShift(b.joined, a.joined)
    case ReferencedEvents => b.referenced == KeyRepairs.Repaired(a.referenced)
    case ReadReceipts => b.receipts == ReceiptRepair.Keep(a.receipts, ReceiptRepair.Nothing)
    case SplitUserIdPassword => b.users == PasswordSplit.Split(a.kinds, a.users)
    case _ => true
  }

  /** The repair has nothing to do. */
  ghost predicate Settled(m: Marker, t: Tables) {
    IsTarget(m, t, t)
  }

  /** The table a repair works on is the same in both. */
  ghost predicate Untouched(m: Marker, a: Tables, b: Tables) {
    a.kinds == b.kinds &&
    match m
    case BadDoubleSeparator => a.joined == b.joined
    case ReferencedEvents => a.referenced == b.referenced
    case ReadReceipts => a.receipts == b.receipts
    case SplitUserIdPassword => a.users == b.users
    case _ => true
  }

  /** One pass of the repair is enough. */
  ghost predicate OnePassIsEnough(m: Marker, t: Tables) {
    m == BadDoubleSeparator ==> DoubleSeparatorRepair.NoTripled(t.joined)
  }

  lemma TargetReached(m: Marker, a: Tables, b: Tables)
    requires SameTarget(m, a, b) && Settled(m, b) && a.kinds == b.kinds
    ensures IsTarget(m, a, b)
  {
    if m == BadDoubleSeparator {
      hide DoubleSeparatorRepair.Shifted;
    }
  }

  /** The last write done was the deletion of a row that is to be inserted again. */
  predicate TornAfter(ws: seq<TableWrite>, n: nat)
    requires n <= |ws|
  {
    n > 0 && ws[n - 1].Joined? && ws[n - 1].jw.Del?
  }

  // ------------------------------------------------------------ cutting a repair

  /** The migration of m leaves the table of o alone. */
  predicate LeavesAlone(m: Marker, o: Marker) {
    m != o && !(m == RoomUserIdJoined && o == BadDoubleSeparator)
  }

  lemma OthersUntouched(t: Tables, m: Marker, n: nat, o: Marker)
    requires n <= |JobWrites(t, m)| && LeavesAlone(m, o)
    ensures Untouched(o, t, WriteAll(t, JobWrites(t, m)[..n]))
  {
    CutWrites(t, m, n);
  }

  /** The tables after the first n writes of a migration. */
  lemma CutWrites(t: Tables, m: Marker, n: nat)
    requires n <= |JobWrites(t, m)|
    ensures var c := WriteAll(t, JobWrites(t, m)[..n]);
            match m
            case BadDoubleSeparator =>
              var ws := DoubleSeparatorRepair.Writes(DoubleSeparatorRepair.RowsOf(t.joined));
              n <= |ws| == |JobWrites(t, m)| && c == t.(joined := DoubleSeparatorRepair.Apply(t.joined, ws[..n]))
            case RoomUserIdJoined =>
              var ws := t.fixMembers(t.joined);
              n <= |ws| == |JobWrites(t, m)| && c == t.(joined := DoubleSeparatorRepair.Apply(t.joined, ws[..n]))
            case ReferencedEvents =>
              var ws := KeyRepairs.Writes(Bytes.Listing(t.referenced));
              n <= |ws| == |JobWrites(t, m)| && c == t.(referenced := KeyRepairs.Apply(t.referenced, ws[..n]))
            case ReadReceipts =>
              var ds := ReceiptRepair.Dups(t.receipts, ReceiptRepair.Nothing);
              n <= |ds| == |JobWrites(t, m)| && c == t.(receipts := ReceiptRepair.DropAll(t.receipts, ds[..n]))
            case SplitUserIdPassword =>
              var ws := PasswordSplit.Writes(t.kinds, PasswordSplit.RowsOf(t.users));
              n <= |ws| == |JobWrites(t, m)| && c == t.(users := PasswordSplit.ApplyAll(t.users, ws[..n]))
            case _ => c == t
  {
    hide DoubleSeparatorRepair.Apply, KeyRepairs.Apply, ReceiptRepair.DropAll, PasswordSplit.ApplyAll,
         DoubleSeparatorRepair.Writes, KeyRepairs.Writes, ReceiptRepair.Dups, PasswordSplit.Writes,
         DoubleSeparatorRepair.RowsOf, PasswordSplit.RowsOf, Bytes.Listing, ReceiptRepair.Listed, WriteAll;
    match m
    case BadDoubleSeparator =>
      var ws := DoubleSeparatorRepair.Writes(DoubleSeparatorRepair.RowsOf(t.joined));
      assert JobWrites(t, m)[..n] == AsJoined(ws[..n]);
      WriteJoined(t, ws[..n]);
    case RoomUserIdJoined =>
      var ws := t.fixMembers(t.joined);
      assert JobWrites(t, m)[..n] == AsJoined(ws[..n]);
      WriteJoined(t, ws[..n]);
    case ReferencedEvents =>
      var ws := KeyRepairs.Writes(Bytes.Listing(t.referenced));
      assert JobWrites(t, m)[..n] == AsReferenced(ws[..n]);
      WriteReferenced(t, ws[..n]);
    case ReadReceipts =>
      var ds := ReceiptRepair.Dups(t.receipts, ReceiptRepair.Nothing);
      assert JobWrites(t, m)[..n] == AsReceipts(ds[..n]);
      WriteReceipts(t, ds[..n]);
    case SplitUserIdPassword =>
      var ws := PasswordSplit.Writes(t.kinds, PasswordSplit.RowsOf(t.users));
      assert JobWrites(t, m)[..n] == AsUsers(ws[..n]);
      WriteUsers(t, ws[..n]);
    case _ => NothingWritten(t);
  }

  lemma NothingWritten(t: Tables)
    ensures WriteAll(t, []) == t
  {
  }

  /** What a migration that does not panic, cut after n writes, does to its table. */
  ghost predicate CutOk(t: Tables, m: Marker, n: nat)
    requires n <= |JobWrites(t, m)|
  {
    var c := WriteAll(t, JobWrites(t, m)[..n]);
    && !JobPanics(c, m) && c.kinds == t.kinds
    && (OnePassIsEnough(m, t) ==>
      && OnePassIsEnough(m, c)
      && (!(m == BadDoubleSeparator && TornAfter(JobWrites(t, m), n)) ==> SameTarget(m, t, c))
      && (n == |JobWrites(t, m)| ==> Settled(m, c)))
  }

  lemma JoinedCut(t: Tables, n: nat)
    requires !JobPanics(t, BadDoubleSeparator) && n <= |JobWrites(t, BadDoubleSeparator)|
    ensures CutOk(t, BadDoubleSeparator, n)
  {
    hide DoubleSeparatorRepair.Shifted, DoubleSeparatorRepair.Apply, DoubleSeparatorRepair.Writes,
         DoubleSeparatorRepair.RowsOf, DoubleSeparatorRepair.Separated, DoubleSeparatorRepair.NoTripled,
         DoubleSeparatorRepair.IsShift, WriteAll;
    var ws := DoubleSeparatorRepair.Writes(DoubleSeparatorRepair.RowsOf(t.joined));
    CutWrites(t, BadDoubleSeparator, n);
    DoubleSeparatorRepair.CutStaysSeparated(t.joined, n);
    if OnePassIsEnough(BadDoubleSeparator, t) {
      DoubleSeparatorRepair.CutKeepsMeaning(t.joined, n);
      if n == |ws| {
        assert ws[..n] == ws;
        DoubleSeparatorRepair.FullRepair(t.joined, DoubleSeparatorRepair.RowsOf(t.joined));
        DoubleSeparatorRepair.WholeIsSettled(t.joined, DoubleSeparatorRepair.Apply(t.joined, ws));
      }
    }
  }

  lemma ReferencedCut(t: Tables, n: nat)
    requires !JobPanics(t, ReferencedEvents) && n <= |JobWrites(t, ReferencedEvents)|
    ensures CutOk(t, ReferencedEvents, n)
  {
    hide KeyRepairs.Repairable, KeyRepairs.Repaired, KeyRepairs.Apply, KeyRepairs.Writes, Bytes.Listing, WriteAll;
    var ks := Bytes.Listing(t.referenced);
    var ws := KeyRepairs.Writes(ks);
    CutWrites(t, ReferencedEvents, n);
    KeyRepairs.ListingLists(t.referenced);
    KeyRepairs.ListsAhead(ks, t.referenced);
    KeyRepairs.CutKeepsMeaning(t.referenced, ks, n);
    KeyRepairs.CutIsRepairable(t.referenced, ks, n);
    if n == |ws| {
      assert ws[..n] == ws;
      KeyRepairs.WholePass(t.referenced, ks);
      KeyRepairs.RepairedIsSettled(t.referenced);
    }
  }

  lemma ReceiptsCut(t: Tables, n: nat)
    requires n <= |JobWrites(t, ReadReceipts)|
    ensures CutOk(t, ReadReceipts, n)
  {
    hide ReceiptRepair.Dups, ReceiptRepair.DropAll, ReceiptRepair.Keep, ReceiptRepair.Cut, ReceiptRepair.Distinct,
         ReceiptRepair.Listed, WriteAll;
    var rs, none := t.receipts, ReceiptRepair.Nothing;
    var ds := ReceiptRepair.Dups(rs, none);
    CutWrites(t, ReadReceipts, n);
    ReceiptRepair.ListedIsDistinct(rs);
    ReceiptRepair.DropsAreCut(rs, none, n);
    ReceiptRepair.RestartConverges(rs, none, n);
    if n == |ds| {
      ReceiptRepair.DupCount(rs, none);
      ReceiptRepair.SameWhenDone(rs, none, n);
      ReceiptRepair.KeepIdempotent(rs, none);
    }
  }

  lemma UsersCut(t: Tables, n: nat)
    requires !JobPanics(t, SplitUserIdPassword) && n <= |JobWrites(t, SplitUserIdPassword)|
    ensures CutOk(t, SplitUserIdPassword, n)
  {
    hide PasswordSplit.Writes, PasswordSplit.ApplyAll, PasswordSplit.Split, PasswordSplit.RowsOf,
         PasswordSplit.Lists, PasswordSplit.Impossible, WriteAll;
    var rows := PasswordSplit.RowsOf(t.users);
    var ws := PasswordSplit.Writes(t.kinds, rows);
    CutWrites(t, SplitUserIdPassword, n);
    PasswordSplit.ListsAhead(rows, t.users);
    PasswordSplit.CutKeepsMeaning(t.kinds, t.users, rows, n);
    PasswordSplit.WritesShrink(t.kinds, t.users, ws[..n]);
    if n == |ws| {
      assert ws[..n] == ws;
      PasswordSplit.WholePass(t.kinds, t.users, rows);
    }
  }

  /** Every migration that does not panic, cut anywhere: it still does not panic;
      where one pass is enough, its result stays the same unless a row was torn,
      and done to its end it has nothing left to do. */
  lemma JobCut(t: Tables, m: Marker, n: nat)
    requires !JobPanics(t, m) && n <= |JobWrites(t, m)|
    ensures CutOk(t, m, n)
  {
    match m
    case BadDoubleSeparator => JoinedCut(t, n);
    case ReferencedEvents => ReferencedCut(t, n);
    case ReadReceipts => ReceiptsCut(t, n);
    case SplitUserIdPassword => UsersCut(t, n);
    case RoomUserIdJoined => CutWrites(t, m, n);
    case _ =>
  }

  /** A migration that panics, cut anywhere, panics again: what it panics on is
      never removed. */
  lemma PanicStays(t: Tables, m: Marker, n: nat)
    requires JobPanics(t, m) && n <= |JobWrites(t, m)|
    ensures JobPanics(WriteAll(t, JobWrites(t, m)[..n]), m)
  {
    CutWrites(t, m, n);
    hide WriteAll;
    match m
    case BadDoubleSeparator => DoubleSeparatorRepair.PanicStays(t.joined, DoubleSeparatorRepair.RowsOf(t.joined), n);
    case ReferencedEvents => KeyRepairs.PanicStays(t.referenced, Bytes.Listing(t.referenced), n);
    case SplitUserIdPassword =>
      PasswordSplit.ListsAhead(PasswordSplit.RowsOf(t.users), t.users);
      PasswordSplit.PanicStays(t.kinds, t.users, PasswordSplit.RowsOf(t.users), n);
  }
}
