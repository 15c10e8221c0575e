/** The migration runner: a fixed list of guarded migrations over a schema
    version, a set of markers and the tables, restarted from the top after every
    interruption. An interruption can fall after any single write. */
module MigrationRunner {
  import opened Common
  import opened MigrationTables
  import Bytes
  import DoubleSeparatorRepair
  import KeyRepairs
  import PasswordSplit
  import ReceiptRepair

  const ALL_MARKERS: set<Marker> := {
    Sha256Media, BadDoubleSeparator, RoomUserIdJoined, ReferencedEvents, ReadReceipts,
    CorruptProfileFields, LeftState, LocalInviteState, SplitUserIdPassword, DropSyncTokens
  }

  const DATABASE_VERSION: nat := 19

  /** The data work of one migration. */
  datatype Job = PushRules12 | PushRules13 | Fix(m: Marker)

  /** What the runner reads and writes. `log` lists the jobs done so far. */
  datatype Db = Db(version: nat, markers: set<Marker>, tables: Tables, log: seq<Job>)

  /** A step that happens or does not: a write to a table, the end of a job, or
      the write of a marker or a version. */
  datatype Effect = Table(w: TableWrite) | Did(job: Job) | Mark(m: Marker) | Bump(v: nat)

  datatype Instr =
    | Versioned(below: nat, job: Job)      // run the job and bump, if the version is below
    | Marked(m: Marker)                    // run and mark, if needed
    | Raise(to: nat)                       // bump, if the version is below

  /** The body of `migrate`, in order. */
  const PROGRAM: seq<Instr> := [
    Versioned(12, PushRules12),
    Versioned(13, PushRules13),
    Marked(Sha256Media),
    Marked(BadDoubleSeparator),
    Marked(RoomUserIdJoined),
    Marked(ReferencedEvents),
    Marked(ReadReceipts),
    Raise(17),
    Marked(CorruptProfileFields),
    Raise(18),
    Marked(LeftState),
    Marked(LocalInviteState),
    Raise(19),
    Marked(SplitUserIdPassword),
    Marked(DropSyncTokens)
  ]

  /** A named migration runs if it is not marked; two also run again below a
      version. */
  function AgainBelow(m: Marker): nat {
    if m == ReferencedEvents || m == ReadReceipts then 17 else 0
  }

  predicate Needed(db: Db, m: Marker) {
    m !in db.markers || db.version < AgainBelow(m)
  }

  predicate Guard(db: Db, i: Instr) {
    match i
    case Versioned(below, _) => db.version < below
    case Marked(m) => Needed(db, m)
    case Raise(to) => db.version < to
  }

  /** The writes to the tables. */
  function Work(db: Db, i: Instr): seq<TableWrite> {
    if i.Marked? then JobWrites(db.tables, i.m) else []
  }

  /** What follows them. */
  function Closing(i: Instr): seq<Effect> {
    match i
    case Versioned(below, job) => [Did(job), Bump(below)]
    case Marked(m) => [Did(Fix(m)), Mark(m)]
    case Raise(to) => [Bump(to)]
  }

  predicate Panics(db: Db, i: Instr) {
    Guard(db, i) && i.Marked? && JobPanics(db.tables, i.m)
  }

  function AsEffects(ws: seq<TableWrite>): (r: seq<Effect>)
    ensures |r| == |ws| && forall i :: 0 <= i < |ws| ==> r[i] == Table(ws[i])
  {
    seq(|ws|, i requires 0 <= i < |ws| => Table(ws[i]))
  }

  function Effects(db: Db, i: Instr): seq<Effect> {
    if !Guard(db, i) then []
    else AsEffects(Work(db, i)) + if Panics(db, i) then [] else Closing(i)
  }

  function Apply(db: Db, e: Effect): Db {
    match e
    case Table(w) => db.(tables := Write(db.tables, w))
    case Did(job) => db.(log := db.log + [job])
    case Mark(m) => db.(markers := db.markers + {m})
    case Bump(v) => db.(version := v)
  }

  function ApplyAll(db: Db, es: seq<Effect>): Db
    decreases |es|
  {
    if es == [] then db else ApplyAll(Apply(db, es[0]), es[1..])
  }

  datatype End = Whole | Cut | Panic

  /** Run the rest of the program with room for n more effects; the run is cut
      where they are used up. */
  function Run(db: Db, prog: seq<Instr>, n: nat): (r: (Db, End))
    decreases |prog|
  {
    if prog == [] then (db, Whole)
    else
      var es := Effects(db, prog[0]);
      if |es| > n then (ApplyAll(db, es[..n]), Cut)
      else if Panics(db, prog[0]) then (ApplyAll(db, es), Panic)
      else Run(ApplyAll(db, es), prog[1..], n - |es|)
  }

  /** The key of the row between whose two writes the repair of doubled separators
      is cut, if it is. */
  function TornAt(db: Db, prog: seq<Instr>, n: nat): Option<DoubleSeparatorRepair.Key>
    decreases |prog|
  {
    if prog == [] then None
    else
      var es := Effects(db, prog[0]);
      if |es| > n then (if n > 0 && prog[0] == Marked(BadDoubleSeparator) then DeletedBy(es[n - 1]) else None)
      else if Panics(db, prog[0]) then None
      else TornAt(ApplyAll(db, es), prog[1..], n - |es|)
  }

  function DeletedBy(e: Effect): Option<DoubleSeparatorRepair.Key> {
    if e.Table? && e.w.Joined? && e.w.jw.Del? then Some(e.w.jw.key) else None
  }

  predicate Torn(db: Db, prog: seq<Instr>, n: nat) {
    TornAt(db, prog, n).Some?
  }

  /** How many effects an uninterrupted run has. */
  function Room(db: Db, prog: seq<Instr>): nat
    decreases |prog|
  {
    if prog == [] then 0
    else
      var es := Effects(db, prog[0]);
      |es| + if Panics(db, prog[0]) then 0 else Room(ApplyAll(db, es), prog[1..])
  }

  datatype Outcome = Migrated | TooOld | Interrupted | AssertionFailed | Panicked

  /** One start of the server on an existing database. */
  function Migrate(db: Db, n: nat): (Db, Outcome) {
    if db.version < 11 then (db, TooOld)
    else
      var (db', end) := Run(db, PROGRAM, n);
      (db', match end
            case Cut => Interrupted
            case Panic => Panicked
            case Whole => if db'.version == DATABASE_VERSION then Migrated else AssertionFailed)
  }

  /** The version and the markers of a new database. */
  predicate IsCurrent(db: Db) {
    db.version == DATABASE_VERSION && db.markers == ALL_MARKERS
  }

  // ------------------------------------------------------ one instruction, cut

  lemma {:induction false} ApplyConcat(db: Db, a: seq<Effect>, b: seq<Effect>)
    ensures ApplyAll(db, a + b) == ApplyAll(ApplyAll(db, a), b)
    decreases |a|
  {
    if a == [] {
      assert a + b == b;
    } else {
      assert (a + b)[1..] == a[1..] + b;
      ApplyConcat(Apply(db, a[0]), a[1..], b);
    }
  }

  lemma {:induction false} ApplyWork(db: Db, ws: seq<TableWrite>)
    ensures ApplyAll(db, AsEffects(ws)) == db.(tables := WriteAll(db.tables, ws))
    decreases |ws|
  {
    if ws != [] {
      assert AsEffects(ws)[1..] == AsEffects(ws[1..]);
      ApplyWork(Apply(db, Table(ws[0])), ws[1..]);
    }
  }

  lemma ApplyUpToTwo(db: Db, es: seq<Effect>)
    ensures es == [] ==> ApplyAll(db, es) == db
    ensures |es| == 1 ==> ApplyAll(db, es) == Apply(db, es[0])
    ensures |es| == 2 ==> ApplyAll(db, es) == Apply(Apply(db, es[0]), es[1])
  {
    if |es| == 1 {
      assert es[1..] == [];
    } else if |es| == 2 {
      assert es[1..][1..] == [];
      assert ApplyAll(Apply(db, es[0]), es[1..]) == ApplyAll(Apply(Apply(db, es[0]), es[1..][0]), []);
    }
  }

  /** The job an instruction runs, as a list. */
  function JobOf(i: Instr): seq<Job> {
    match i
    case Versioned(_, job) => [job]
    case Marked(m) => [Fix(m)]
    case Raise(_) => []
  }

  /** The database after the first n effects of an instruction: first the tables,
      then the log, last the marker or the version. */
  function After(db: Db, i: Instr, n: nat): Db
    requires Guard(db, i)
  {
    var ws := Work(db, i);
    if n <= |ws| then db.(tables := WriteAll(db.tables, ws[..n]))
    else
      var d := db.(tables := WriteAll(db.tables, ws), log := db.log + JobOf(i));
      if n < |ws| + |Closing(i)| then d
      else match i
        case Versioned(below, _) => d.(version := below)
        case Marked(m) => d.(markers := d.markers + {m})
        case Raise(to) => d.(version := to)
  }

  lemma CutShape(db: Db, i: Instr, n: nat)
    requires n <= |Effects(db, i)| && Guard(db, i)
    ensures ApplyAll(db, Effects(db, i)[..n]) == After(db, i, n)
  {
    hide JobWrites, JobPanics, WriteAll;
    var ws, es := Work(db, i), Effects(db, i);
    if n <= |ws| {
      assert es[..n] == AsEffects(ws[..n]);
      ApplyWork(db, ws[..n]);
    } else {
      var d := db.(tables := WriteAll(db.tables, ws));
      var rest := Closing(i)[..n - |ws|];
      assert es[..n] == AsEffects(ws) + rest;
      ApplyWork(db, ws);
      ApplyConcat(db, AsEffects(ws), rest);
      ApplyUpToTwo(d, rest);
      assert d.log + [] == d.log;
    }
  }

  lemma WholeShape(db: Db, i: Instr)
    requires Guard(db, i)
    ensures ApplyAll(db, Effects(db, i)) == After(db, i, |Effects(db, i)|)
    ensures |Effects(db, i)| == |Work(db, i)| + if Panics(db, i) then 0 else |Closing(i)|
  {
    hide JobWrites, JobPanics, WriteAll, After;
    CutShape(db, i, |Effects(db, i)|);
    assert Effects(db, i)[..|Effects(db, i)|] == Effects(db, i);
  }

  // ----------------------------------------------------- what every effect keeps

  /** From a to b nothing is undone, and each new marker or version bump of the
      early migrations comes after its job. */
  ghost predicate Forward(a: Db, b: Db) {
    && a.version <= b.version && a.markers <= b.markers && a.log <= b.log
    && (forall m :: m in b.markers && m !in a.markers ==> Fix(m) in b.log[|a.log|..])
    && (a.version < 12 <= b.version ==> PushRules12 in b.log[|a.log|..])
    && (a.version < 13 <= b.version ==> PushRules13 in b.log[|a.log|..])
    && (b.version > a.version ==> b.version <= DATABASE_VERSION)
  }

  lemma ForwardTransitive(a: Db, b: Db, c: Db)
    requires Forward(a, b) && Forward(b, c)
    ensures Forward(a, c)
  {
    var x, y, z := b.log[|a.log|..], c.log[|b.log|..], c.log[|a.log|..];
    assert c.log == a.log + x + y;
    assert z == x + y;
  }

  /** An instruction in its place in the program. */
  predicate Placed(i: Instr, version: nat) {
    match i
    case Versioned(below, job) =>
      (below == 12 && job == PushRules12) || (below == 13 && job == PushRules13 && version >= 12)
    case Marked(_) => true
    case Raise(to) => version >= 13 && to <= DATABASE_VERSION
  }

  /** The effects of one instruction, cut anywhere, only move forward. */
  lemma InstrForward(db: Db, i: Instr, n: nat)
    requires n <= |Effects(db, i)| && Placed(i, db.version)
    ensures Forward(db, ApplyAll(db, Effects(db, i)[..n]))
  {
    hide JobWrites, JobPanics, WriteAll;
    if Guard(db, i) {
      CutShape(db, i, n);
      hide ApplyAll, Effects;
      var d := After(db, i, n);
      assert d.log == db.log || d.log == db.log + JobOf(i);
      assert d.log == db.log + JobOf(i) ==> d.log[|db.log|..] == JobOf(i);
    }
  }

  // ---------------------------------------------------------- the whole program

  /** The least version with which instruction k is reached. */
  function Floor(k: nat): nat {
    if k == 0 then 11 else if k == 1 then 12 else if k < 8 then 13
    else if k < 10 then 17 else if k < 13 then 18 else 19
  }

  /** Where a named migration stands in the program. */
  function Position(m: Marker): (j: nat)
    ensures j < |PROGRAM| && PROGRAM[j] == Marked(m)
  {
    match m
    case Sha256Media => 2
    case BadDoubleSeparator => 3
    case RoomUserIdJoined => 4
    case ReferencedEvents => 5
    case ReadReceipts => 6
    case CorruptProfileFields => 8
    case LeftState => 10
    case LocalInviteState => 11
    case SplitUserIdPassword => 13
    case DropSyncTokens => 14
  }

  lemma PositionIsOnly(k: nat)
    requires k < |PROGRAM| && PROGRAM[k].Marked?
    ensures Position(PROGRAM[k].m) == k
  {
  }

  /** Instruction k is reached: the version is high enough, the markers before it
      are set. */
  ghost predicate Reached(db: Db, k: nat) {
    db.version >= Floor(k) && forall m :: Position(m) < k ==> m in db.markers
  }

  lemma InstrDone(db: Db, k: nat)
    requires k < |PROGRAM| && Reached(db, k) && !Panics(db, PROGRAM[k])
    ensures Placed(PROGRAM[k], db.version)
    ensures var d := ApplyAll(db, Effects(db, PROGRAM[k]));
            Reached(d, k + 1) && (d.version == db.version || d.version <= DATABASE_VERSION)
  {
    hide JobWrites, JobPanics, WriteAll;
    var i := PROGRAM[k];
    PlacedAt(db, k);
    FloorStep(db, k);
    var d := if Guard(db, i) then After(db, i, |Work(db, i)| + |Closing(i)|) else db;
    if Guard(db, i) {
      WholeShape(db, i);
    }
    hide ApplyAll, Effects, Position, Floor;
    forall m | Position(m) < k + 1
      ensures m in d.markers
    {
      if Position(m) == k {
        assert i == Marked(m);
      }
    }
  }

  /** The version an instruction leaves is high enough for the next. */
  lemma FloorStep(db: Db, k: nat)
    requires k < |PROGRAM| && db.version >= Floor(k)
    ensures match PROGRAM[k]
            case Versioned(below, _) =>
              below >= Floor(k + 1) && below <= DATABASE_VERSION && (db.version >= below ==> db.version >= Floor(k + 1))
            case Marked(_) => db.version >= Floor(k + 1)
            case Raise(to) =>
              to >= Floor(k + 1) && to <= DATABASE_VERSION && (db.version >= to ==> db.version >= Floor(k + 1))
  {
  }

  /** From instruction k on, a run cut anywhere only moves forward, and a whole
      one ends with every marker and at least the current version. */
  lemma {:induction false} RunFrom(db: Db, k: nat, n: nat)
    requires k <= |PROGRAM| && Reached(db, k)
    ensures Forward(db, Run(db, PROGRAM[k..], n).0)
    ensures Run(db, PROGRAM[k..], n).1.Whole? ==>
              var d := Run(db, PROGRAM[k..], n).0;
              Reached(d, |PROGRAM|) && (db.version <= DATABASE_VERSION ==> d.version == DATABASE_VERSION)
    decreases |PROGRAM| - k
  {
    var prog := PROGRAM[k..];
    if k == |PROGRAM| {
      assert prog == [];
    } else {
      assert prog[0] == PROGRAM[k] && prog[1..] == PROGRAM[k + 1..];
      hide Placed, Effects, Reached, Panics, ApplyAll;
      var es := Effects(db, PROGRAM[k]);
      PlacedAt(db, k);
      assert es[..|es|] == es;
      if |es| > n {
        InstrForward(db, PROGRAM[k], n);
      } else {
        InstrForward(db, PROGRAM[k], |es|);
        if !Panics(db, PROGRAM[k]) {
          InstrDone(db, k);
          var d := ApplyAll(db, es);
          RunFrom(d, k + 1, n - |es|);
          ForwardTransitive(db, d, Run(db, prog, n).0);
        }
      }
    }
  }

  lemma PlacedAt(db: Db, k: nat)
    requires k < |PROGRAM| && Reached(db, k)
    ensures Placed(PROGRAM[k], db.version)
  {
  }

  lemma {:induction false} RoomIsEnough(db: Db, prog: seq<Instr>, n: nat)
    ensures Run(db, prog, n).1.Cut? <==> n < Room(db, prog)
    decreases |prog|
  {
    hide Effects, ApplyAll, Panics;
    if prog != [] && |Effects(db, prog[0])| <= n && !Panics(db, prog[0]) {
      RoomIsEnough(ApplyAll(db, Effects(db, prog[0])), prog[1..], n - |Effects(db, prog[0])|);
    }
  }

  // ---------------------------------------------------------- needs and panics

  /** Before its turn a needed migration stays needed, whatever else happens. */
  lemma StaysNeeded(db: Db, k: nat, n: nat, m: Marker)
    requires k < |PROGRAM| && Guard(db, PROGRAM[k]) && n <= |Effects(db, PROGRAM[k])| && Needed(db, m)
    requires k < Position(m) || (k == Position(m) && (n < |Effects(db, PROGRAM[k])| || Panics(db, PROGRAM[k])))
    ensures Needed(After(db, PROGRAM[k], n), m)
  {
    hide JobWrites, JobPanics, WriteAll;
    WholeShape(db, PROGRAM[k]);
  }

  lemma StaysUnneeded(db: Db, i: Instr, n: nat, m: Marker)
    requires Guard(db, i) && Placed(i, db.version) && !Needed(db, m)
    ensures !Needed(After(db, i, n), m)
  {
    hide JobWrites, JobPanics, WriteAll;
  }

  /** Whether an instruction leaves the table of m alone. */
  predicate Passes(i: Instr, m: Marker) {
    i.Marked? ==> LeavesAlone(i.m, m)
  }

  lemma InstrPasses(db: Db, i: Instr, n: nat, m: Marker)
    requires Guard(db, i) && n <= |Effects(db, i)| && Passes(i, m)
    ensures Untouched(m, db.tables, After(db, i, n).tables)
  {
    hide JobWrites, JobPanics, WriteAll;
    var ws := Work(db, i);
    var j := if n <= |ws| then n else |ws|;
    assert ws[..|ws|] == ws;
    if i.Marked? {
      OthersUntouched(db.tables, i.m, j, m);
    } else {
      NothingWritten(db.tables);
      assert ws[..j] == [];
    }
    hide Untouched;
  }

  /** Before its turn: the table of m is untouched, and the need is the same. */
  ghost predicate Pristine(m: Marker, s: Db, db: Db) {
    Untouched(m, s.tables, db.tables) && (Needed(db, m) <==> Needed(s, m))
  }

  lemma PristinePanics(m: Marker, s: Db, db: Db)
    requires Pristine(m, s, db)
    ensures JobPanics(db.tables, m) <==> JobPanics(s.tables, m)
  {
  }

  lemma PassesBefore(k: nat, m: Marker)
    requires k < Position(m)
    ensures k < |PROGRAM| && Passes(PROGRAM[k], m)
  {
  }

  /** Up to the turn of m, cut or not, nothing happens to its table. */
  lemma StaysPristine(m: Marker, s: Db, k: nat, db: Db, n: nat)
    requires k < Position(m) && Pristine(m, s, db) && Reached(db, k) && n <= |Effects(db, PROGRAM[k])|
    ensures Pristine(m, s, ApplyAll(db, Effects(db, PROGRAM[k])[..n]))
  {
    hide Untouched, JobWrites, JobPanics, Reached, Position;
    PassesBefore(k, m);
    PlacedAt(db, k);
    var i := PROGRAM[k];
    if Guard(db, i) {
      CutShape(db, i, n);
      InstrPasses(db, i, n, m);
      if Needed(db, m) {
        StaysNeeded(db, k, n, m);
      } else {
        StaysUnneeded(db, i, n, m);
      }
      UntouchedTransitive(m, s.tables, db.tables, After(db, i, n).tables);
    }
    hide Effects, ApplyAll, After;
  }

  lemma UntouchedTransitive(m: Marker, a: Tables, b: Tables, c: Tables)
    requires Untouched(m, a, b) && Untouched(m, b, c)
    ensures Untouched(m, a, c)
  {
  }

  /** Some migration that is needed would panic. */
  ghost predicate SomePanic(db: Db) {
    exists m :: Needed(db, m) && JobPanics(db.tables, m)
  }

  /** All migrations whose turn is to come are pristine. */
  ghost predicate AllPristine(s: Db, k: nat, db: Db) {
    forall m :: Position(m) >= k ==> Pristine(m, s, db)
  }

  lemma NextPristine(s: Db, k: nat, db: Db)
    requires k < |PROGRAM| && AllPristine(s, k, db) && Reached(db, k)
    ensures AllPristine(s, k + 1, ApplyAll(db, Effects(db, PROGRAM[k])))
  {
    hide Pristine, Effects, ApplyAll, Reached;
    var es := Effects(db, PROGRAM[k]);
    assert es[..|es|] == es;
    forall m | Position(m) >= k + 1
      ensures Pristine(m, s, ApplyAll(db, es))
    {
      StaysPristine(m, s, k, db, |es|);
    }
  }

  /** From instruction k on, an uninterrupted run panics exactly if a migration
      whose turn is to come is needed and would panic. */
  lemma {:induction false} PanicsFrom(s: Db, k: nat, db: Db, n: nat)
    requires k <= |PROGRAM| && AllPristine(s, k, db) && Reached(db, k) && n >= Room(db, PROGRAM[k..])
    ensures Run(db, PROGRAM[k..], n).1.Panic? <==>
              exists m :: Position(m) >= k && Needed(s, m) && JobPanics(s.tables, m)
    decreases |PROGRAM| - k
  {
    hide Pristine, Effects, ApplyAll, Reached, JobPanics;
    var prog := PROGRAM[k..];
    if k == |PROGRAM| {
      assert prog == [];
    } else {
      var i := PROGRAM[k];
      assert prog[0] == i && prog[1..] == PROGRAM[k + 1..];
      InstrPanicsIff(s, k, db);
      if !Panics(db, i) {
        hide Panics, Needed;
        InstrDone(db, k);
        NextPristine(s, k, db);
        PanicsFrom(s, k + 1, ApplyAll(db, Effects(db, i)), n - |Effects(db, i)|);
        forall m | Position(m) >= k && Needed(s, m) && JobPanics(s.tables, m)
          ensures Position(m) >= k + 1
        {
        }
      }
    }
  }

  lemma InstrPanicsIff(s: Db, k: nat, db: Db)
    requires k < |PROGRAM| && AllPristine(s, k, db)
    ensures Panics(db, PROGRAM[k]) <==>
              exists m :: Position(m) == k && Needed(s, m) && JobPanics(s.tables, m)
  {
    hide JobPanics, Untouched;
    var i := PROGRAM[k];
    if i.Marked? {
      PositionIsOnly(k);
      assert Pristine(i.m, s, db);
      PristinePanics(i.m, s, db);
    }
    forall m | Position(m) == k
      ensures i == Marked(m)
    {
    }
  }

  /** An uninterrupted start panics exactly if a needed migration would. */
  lemma PanicsIff(db: Db, n: nat)
    requires db.version >= 11 && n >= Room(db, PROGRAM)
    ensures Migrate(db, n).1.Panicked? <==> SomePanic(db)
  {
    hide Run, JobPanics, Room, AllPristine;
    assert PROGRAM[0..] == PROGRAM;
    PristineAtOnce(db);
    PanicsFrom(db, 0, db, n);
  }

  lemma PristineAtOnce(db: Db)
    ensures AllPristine(db, 0, db)
  {
  }

  /** The same in plain terms: a needed repair meets a key of the joined table
      without a separator, a key of referenced events without separator that is
      not text with a dollar sign, or a remote user with a password. */
  lemma PanicsMean(db: Db)
    ensures SomePanic(db) <==>
      || (BadDoubleSeparator !in db.markers && exists k :: k in db.tables.joined && Bytes.SEP !in k)
      || ((db.version < 17 || ReferencedEvents !in db.markers) &&
          exists k :: k in db.tables.referenced && Bytes.SEP !in k &&
            !(Bytes.ValidUtf8(k) && KeyRepairs.DOLLAR in k))
      || (SplitUserIdPassword !in db.markers &&
          exists u :: u in db.tables.users.passwords && db.tables.users.passwords[u] != "" &&
            u !in db.tables.kinds.local)
  {
    PanicCases(db);
    var us := db.tables.users;
    assert JobPanics(db.tables, SplitUserIdPassword) <==>
      exists u :: u in us.passwords && u !in db.tables.kinds.local && us.passwords[u] != "" by {
      if u :| u in us.passwords && PasswordSplit.Impossible(db.tables.kinds, PasswordSplit.Row(u, us.passwords[u])) {
        assert u in us.passwords && u !in db.tables.kinds.local && us.passwords[u] != "";
      }
      if u :| u in us.passwords && u !in db.tables.kinds.local && us.passwords[u] != "" {
        assert PasswordSplit.Impossible(db.tables.kinds, PasswordSplit.Row(u, us.passwords[u]));
      }
    }
    hide SomePanic;
  }

  lemma PanicCases(db: Db)
    ensures SomePanic(db) <==>
      || (Needed(db, BadDoubleSeparator) && JobPanics(db.tables, BadDoubleSeparator))
      || (Needed(db, ReferencedEvents) && JobPanics(db.tables, ReferencedEvents))
      || (Needed(db, SplitUserIdPassword) && JobPanics(db.tables, SplitUserIdPassword))
  {
    hide DoubleSeparatorRepair.Separated, KeyRepairs.AllRepairable, PasswordSplit.Possible;
  }

  // ------------------------------------------------------- what happens to a table

  /** From a to b, the table of a migration that is not disturbed by another:
      untouched if it was not needed; else, if it does not panic, its result is
      still the same, and it is reached if the migration is no longer needed. A
      migration that panics goes on to do so. */
  ghost predicate Advances(m: Marker, a: Db, b: Db) {
    && a.tables.kinds == b.tables.kinds
    && (!Needed(a, m) ==> Untouched(m, a.tables, b.tables) && !Needed(b, m))
    && (Needed(a, m) ==>
      if JobPanics(a.tables, m) then Needed(b, m) && JobPanics(b.tables, m)
      else
        && !JobPanics(b.tables, m) && SameTarget(m, a.tables, b.tables)
        && (!Needed(b, m) ==> Settled(m, b.tables)))
  }

  lemma AdvancesTransitive(m: Marker, a: Db, b: Db, c: Db)
    requires Advances(m, a, b) && Advances(m, b, c)
    ensures Advances(m, a, c)
  {
    if m == BadDoubleSeparator {
      hide DoubleSeparatorRepair.Shifted;
    }
  }

  /** In the middle of a run from s, before instruction k and without a panic: a
      migration whose turn is over has done its work, one whose turn is to come
      is pristine. */
  ghost predicate Tracks(m: Marker, s: Db, k: nat, db: Db) {
    if Position(m) >= k then Pristine(m, s, db)
    else if !Needed(s, m) then Untouched(m, s.tables, db.tables) && !Needed(db, m)
    else
      && s.tables.kinds == db.tables.kinds && !JobPanics(s.tables, m) && !JobPanics(db.tables, m)
      && SameTarget(m, s.tables, db.tables) && Settled(m, db.tables)
  }

  /** The turn of m itself, cut or not. */
  lemma OwnTurn(db: Db, n: nat, m: Marker)
    requires m != BadDoubleSeparator && Needed(db, m) && n <= |Effects(db, Marked(m))|
    ensures var c := After(db, Marked(m), n);
            && c.tables.kinds == db.tables.kinds
            && (JobPanics(c.tables, m) <==> JobPanics(db.tables, m))
            && (!JobPanics(db.tables, m) ==> SameTarget(m, db.tables, c.tables))
            && (!JobPanics(db.tables, m) && n >= |Work(db, Marked(m))| ==> Settled(m, c.tables))
  {
    hide IsTarget, SameTarget, JobPanics, WriteAll, JobWrites;
    var ws := Work(db, Marked(m));
    var j := if n <= |ws| then n else |ws|;
    assert ws[..|ws|] == ws;
    if JobPanics(db.tables, m) {
      PanicStays(db.tables, m, j);
      KindsStay(db.tables, m, j);
    } else {
      JobCut(db.tables, m, j);
    }
  }

  lemma KindsStay(t: Tables, m: Marker, n: nat)
    requires n <= |JobWrites(t, m)|
    ensures WriteAll(t, JobWrites(t, m)[..n]).kinds == t.kinds
  {
    CutWrites(t, m, n);
    hide WriteAll;
  }

  lemma SameWhenUntouched(m: Marker, s: Tables, a: Tables, b: Tables)
    requires Untouched(m, a, b)
    ensures SameTarget(m, s, a) ==> SameTarget(m, s, b)
    ensures SameTarget(m, b, s) <==> SameTarget(m, a, s)
    ensures Settled(m, a) ==> Settled(m, b)
    ensures Untouched(m, s, a) ==> Untouched(m, s, b)
    ensures JobPanics(a, m) <==> JobPanics(b, m)
    ensures a.kinds == b.kinds
  {
  }

  /** The turns after that of m leave its table alone, except that the members'
      migration works on the joined table. */
  lemma PassesAfter(k: nat, m: Marker)
    requires k < |PROGRAM| && k != Position(m) && m != BadDoubleSeparator
    ensures Passes(PROGRAM[k], m)
  {
    if PROGRAM[k].Marked? {
      PositionIsOnly(k);
    }
  }

  lemma InstrTracks(m: Marker, s: Db, k: nat, db: Db)
    requires m != BadDoubleSeparator && k < |PROGRAM| && Tracks(m, s, k, db) && Reached(db, k)
    requires !Panics(db, PROGRAM[k])
    ensures Tracks(m, s, k + 1, ApplyAll(db, Effects(db, PROGRAM[k])))
  {
    hide IsTarget, SameTarget, Untouched, JobPanics, WriteAll, JobWrites, Reached, Position;
    var i := PROGRAM[k];
    var es := Effects(db, i);
    assert es[..|es|] == es;
    if k < Position(m) {
      StaysPristine(m, s, k, db, |es|);
      AtLeastNext(k, m);
    } else if k == Position(m) {
      OwnTurnTracks(m, s, db);
    } else {
      PassesAfter(k, m);
      PlacedAt(db, k);
      if Guard(db, i) {
        WholeShape(db, i);
        InstrPasses(db, i, |es|, m);
        SameWhenUntouched(m, s.tables, db.tables, After(db, i, |es|).tables);
        if !Needed(db, m) {
          StaysUnneeded(db, i, |es|, m);
        }
      }
    }
    hide Effects, ApplyAll, After;
  }

  lemma AtLeastNext(k: nat, m: Marker)
    requires k < Position(m)
    ensures Position(m) >= k + 1
  {
  }

  lemma OwnTurnTracks(m: Marker, s: Db, db: Db)
    requires m != BadDoubleSeparator && Pristine(m, s, db) && !Panics(db, Marked(m))
    ensures Tracks(m, s, Position(m) + 1, ApplyAll(db, Effects(db, Marked(m))))
  {
    hide IsTarget, SameTarget, Untouched, JobPanics, WriteAll, JobWrites;
    if Needed(db, m) {
      WholeShape(db, Marked(m));
      OwnTurn(db, |Effects(db, Marked(m))|, m);
      var d := After(db, Marked(m), |Effects(db, Marked(m))|);
      SameFromUntouched(m, s.tables, db.tables, d.tables);
    }
    hide Effects, ApplyAll, After;
  }

  lemma SameFromUntouched(m: Marker, s: Tables, a: Tables, b: Tables)
    requires Untouched(m, s, a)
    ensures SameTarget(m, a, b) ==> SameTarget(m, s, b)
    ensures JobPanics(s, m) <==> JobPanics(a, m)
    ensures s.kinds == a.kinds
  {
  }

  /** A run that is cut in an instruction, or panics in it. */
  lemma InstrCut(m: Marker, s: Db, k: nat, db: Db, n: nat)
    requires m != BadDoubleSeparator && k < |PROGRAM| && Tracks(m, s, k, db) && Reached(db, k)
    requires n <= |Effects(db, PROGRAM[k])| && (n < |Effects(db, PROGRAM[k])| || Panics(db, PROGRAM[k]))
    ensures Advances(m, s, ApplyAll(db, Effects(db, PROGRAM[k])[..n]))
  {
    hide IsTarget, SameTarget, Untouched, JobPanics, WriteAll, JobWrites, Reached, Position;
    var i := PROGRAM[k];
    if k < Position(m) {
      StaysPristine(m, s, k, db, n);
      hide Effects, ApplyAll;
      PristineAdvances(m, s, ApplyAll(db, Effects(db, i)[..n]));
    } else if k == Position(m) {
      OwnTurnCut(m, s, k, db, n);
    } else {
      PassesAfter(k, m);
      PlacedAt(db, k);
      CutShape(db, i, n);
      InstrPasses(db, i, n, m);
      SameWhenUntouched(m, s.tables, db.tables, After(db, i, n).tables);
      if !Needed(db, m) {
        StaysUnneeded(db, i, n, m);
      }
      hide Effects, ApplyAll, After;
    }
  }

  lemma PristineAdvances(m: Marker, a: Db, b: Db)
    requires Pristine(m, a, b)
    ensures Advances(m, a, b)
  {
  }

  lemma OwnTurnCut(m: Marker, s: Db, k: nat, db: Db, n: nat)
    requires m != BadDoubleSeparator && k == Position(m) && Pristine(m, s, db)
    requires n <= |Effects(db, Marked(m))| && (n < |Effects(db, Marked(m))| || Panics(db, Marked(m)))
    ensures Advances(m, s, ApplyAll(db, Effects(db, Marked(m))[..n]))
  {
    hide IsTarget, SameTarget, Untouched, JobPanics, WriteAll, JobWrites, Position;
    assert PROGRAM[k] == Marked(m);
    assert Needed(db, m);
    CutShape(db, Marked(m), n);
    OwnTurn(db, n, m);
    StaysNeeded(db, k, n, m);
    SameFromUntouched(m, s.tables, db.tables, After(db, Marked(m), n).tables);
    hide Effects, ApplyAll, After;
  }

  /** From instruction k on, cut anywhere. */
  lemma {:induction false} RunTracks(m: Marker, s: Db, k: nat, db: Db, n: nat)
    requires m != BadDoubleSeparator && k <= |PROGRAM| && Tracks(m, s, k, db) && Reached(db, k)
    ensures Advances(m, s, Run(db, PROGRAM[k..], n).0)
    decreases |PROGRAM| - k
  {
    hide Advances, Tracks, Effects, ApplyAll, Panics, Reached, Position;
    var prog := PROGRAM[k..];
    if k == |PROGRAM| {
      assert prog == [];
      TracksToEnd(m, s, db);
    } else {
      assert prog[0] == PROGRAM[k] && prog[1..] == PROGRAM[k + 1..];
      var es := Effects(db, PROGRAM[k]);
      assert es[..|es|] == es;
      if |es| > n {
        InstrCut(m, s, k, db, n);
      } else if Panics(db, PROGRAM[k]) {
        InstrCut(m, s, k, db, |es|);
      } else {
        InstrTracks(m, s, k, db);
        InstrDone(db, k);
        RunTracks(m, s, k + 1, ApplyAll(db, es), n - |es|);
      }
    }
  }

  lemma TracksToEnd(m: Marker, s: Db, db: Db)
    requires Tracks(m, s, |PROGRAM|, db)
    ensures Advances(m, s, db)
  {
  }

  lemma AdvancesAtOnce(m: Marker, db: Db)
    ensures Advances(m, db, db)
  {
  }

  // ----------------------------------------------------------------- results

  /** A start, wherever it is cut, undoes nothing and marks nothing early. */
  lemma MigrateForward(db: Db, n: nat)
    ensures Forward(db, Migrate(db, n).0)
  {
    if db.version >= 11 {
      assert PROGRAM[0..] == PROGRAM;
      RunFrom(db, 0, n);
    }
  }

  /** What a start, wherever it is cut and whatever panics, does to the table of
      a repair other than that of doubled separators. */
  lemma MigrateAdvances(db: Db, n: nat, m: Marker)
    requires m != BadDoubleSeparator
    ensures Advances(m, db, Migrate(db, n).0)
  {
    hide Advances, Run;
    AdvancesAtOnce(m, db);
    if db.version >= 11 {
      assert PROGRAM[0..] == PROGRAM;
      RunTracks(m, db, 0, db, n);
    }
  }

  lemma NoOtherMarker(m: Marker)
    ensures m in ALL_MARKERS
  {}

  /** What an uninterrupted start comes to, on any database. */
  lemma WholeRun(db: Db, n: nat)
    requires n >= Room(db, PROGRAM)
    ensures Migrate(db, n).1 ==
            if db.version < 11 then TooOld
            else if SomePanic(db) then Panicked
            else if db.version <= DATABASE_VERSION then Migrated
            else AssertionFailed
  {
    if db.version >= 11 {
      assert PROGRAM[0..] == PROGRAM;
      RoomIsEnough(db, PROGRAM, n);
      PanicsIff(db, n);
      RunFrom(db, 0, n);
      hide Run, Forward, Room, SomePanic;
    }
  }

  /** The database after a number of interrupted starts. */
  function Starts(db: Db, cuts: seq<nat>): Db {
    if cuts == [] then db else Migrate(Starts(db, cuts[..|cuts| - 1]), cuts[|cuts| - 1]).0
  }

  lemma {:induction false} StartsForward(db: Db, cuts: seq<nat>)
    ensures Forward(db, Starts(db, cuts))
    decreases |cuts|
  {
    if cuts != [] {
      hide Migrate;
      var d := Starts(db, cuts[..|cuts| - 1]);
      StartsForward(db, cuts[..|cuts| - 1]);
      MigrateForward(d, cuts[|cuts| - 1]);
      ForwardTransitive(db, d, Starts(db, cuts));
    }
  }

  lemma StillSupported(db: Db, cuts: seq<nat>)
    requires 11 <= db.version <= DATABASE_VERSION
    ensures 11 <= Starts(db, cuts).version <= DATABASE_VERSION
  {
    StartsForward(db, cuts);
  }

  /** From any version 11 to 19, any markers and any tables, after any starts cut
      after any write: a start that completes has the version and the markers of a
      new database, with every new marker preceded by its job. */
  lemma CompletedIsCurrent(db: Db, cuts: seq<nat>, n: nat)
    requires 11 <= db.version <= DATABASE_VERSION
    ensures var (d, outcome) := Migrate(Starts(db, cuts), n);
            Forward(db, d) && (outcome == Migrated ==> IsCurrent(d))
  {
    var last := Starts(db, cuts);
    StartsForward(db, cuts);
    MigrateForward(last, n);
    ForwardTransitive(db, last, Migrate(last, n).0);
    assert PROGRAM[0..] == PROGRAM;
    RunFrom(last, 0, n);
    hide Run, Forward, Starts;
    forall m: Marker ensures m in ALL_MARKERS {
      NoOtherMarker(m);
    }
  }

  lemma {:induction false} StartsAdvance(db: Db, cuts: seq<nat>, m: Marker)
    requires m != BadDoubleSeparator
    ensures Advances(m, db, Starts(db, cuts))
    decreases |cuts|
  {
    hide Migrate, Advances;
    if cuts == [] {
      AdvancesAtOnce(m, db);
    } else {
      var n := |cuts| - 1;
      var before := Starts(db, cuts[..n]);
      StartsAdvance(db, cuts[..n], m);
      MigrateAdvances(before, cuts[n], m);
      AdvancesTransitive(m, db, before, Starts(db, cuts));
    }
  }

  // --------------------------------------------------------------- which jobs run

  /** Whether a job is due: the push rules below their versions; a named migration
      while it has no marker, and two of them below version 17 even with it. */
  predicate Due(db: Db, job: Job) {
    match job
    case PushRules12 => db.version < 12
    case PushRules13 => db.version < 13
    case Fix(m) => m !in db.markers || (db.version < 17 && (m == ReferencedEvents || m == ReadReceipts))
  }

  /** Where a job stands in the program. */
  function Turn(job: Job): (k: nat)
    ensures k < |PROGRAM| && JobOf(PROGRAM[k]) == [job]
  {
    match job
    case PushRules12 => 0
    case PushRules13 => 1
    case Fix(m) => Position(m)
  }

  lemma TurnIsOnly(k: nat, job: Job)
    requires k < |PROGRAM|
    ensures JobOf(PROGRAM[k]) == [job] <==> k == Turn(job)
  {
    if PROGRAM[k].Marked? {
      PositionIsOnly(k);
    }
  }

  /** A job is due exactly if the program would run it. */
  lemma DueIsGuarded(db: Db, job: Job)
    ensures Due(db, job) <==> Guard(db, PROGRAM[Turn(job)])
  {
  }

  /** The jobs done from a to b. */
  function NewJobs(a: Db, b: Db): seq<Job>
    requires a.log <= b.log
  {
    b.log[|a.log|..]
  }

  /** From a to b a job was done only if it was due, and it was done if it is no
      longer due. */
  ghost predicate Logged(job: Job, a: Db, b: Db) {
    && a.log <= b.log
    && (job in NewJobs(a, b) ==> Due(a, job))
    && (Due(a, job) && !Due(b, job) ==> job in NewJobs(a, b))
    && (!Due(a, job) ==> !Due(b, job))
  }

  lemma LoggedTransitive(job: Job, a: Db, b: Db, c: Db)
    requires Logged(job, a, b) && Logged(job, b, c)
    ensures Logged(job, a, c)
  {
    hide Due;
    assert NewJobs(a, c) == NewJobs(a, b) + NewJobs(b, c);
  }

  /** The same before instruction k of a run from s. */
  ghost predicate LogTracks(job: Job, s: Db, k: nat, db: Db) {
    && s.log <= db.log
    && if Turn(job) >= k then (Due(db, job) <==> Due(s, job)) && job !in NewJobs(s, db)
       else (job in NewJobs(s, db) <==> Due(s, job)) && (!Due(s, job) ==> !Due(db, job))
  }

  /** What an instruction, cut or not, does to whether a job is due. */
  lemma DueStep(db: Db, k: nat, n: nat, job: Job)
    requires k < |PROGRAM| && Guard(db, PROGRAM[k]) && Placed(PROGRAM[k], db.version) && n <= |Effects(db, PROGRAM[k])|
    ensures !Due(db, job) ==> !Due(After(db, PROGRAM[k], n), job)
    ensures Due(db, job) && k < Turn(job) ==> Due(After(db, PROGRAM[k], n), job)
    ensures Due(db, job) && k == Turn(job) && (n < |Effects(db, PROGRAM[k])| || Panics(db, PROGRAM[k])) ==>
              Due(After(db, PROGRAM[k], n), job)
  {
    hide JobWrites, JobPanics, WriteAll, Effects, ApplyAll;
    WholeShape(db, PROGRAM[k]);
    DueIsGuarded(db, job);
  }

  /** The jobs an instruction adds to the log, cut or not. */
  lemma LogStep(db: Db, i: Instr, n: nat)
    requires Guard(db, i) && n <= |Effects(db, i)|
    ensures var c := After(db, i, n);
            && (n <= |Work(db, i)| ==> c.log == db.log)
            && (n > |Work(db, i)| ==> c.log == db.log + JobOf(i))
  {
    hide JobWrites, JobPanics, WriteAll, Effects;
  }

  lemma NewJobsStep(s: Db, db: Db, c: Db, more: seq<Job>)
    requires s.log <= db.log && c.log == db.log + more
    ensures s.log <= c.log && NewJobs(s, c) == NewJobs(s, db) + more
  {
  }

  /** One instruction, done to its end. */
  lemma InstrLogs(job: Job, s: Db, k: nat, db: Db)
    requires k < |PROGRAM| && LogTracks(job, s, k, db) && Reached(db, k) && !Panics(db, PROGRAM[k])
    ensures LogTracks(job, s, k + 1, ApplyAll(db, Effects(db, PROGRAM[k])))
  {
    hide Due, Turn, Reached, JobWrites, JobPanics, WriteAll, NewJobs;
    var i := PROGRAM[k];
    TurnIsOnly(k, job);
    DueIsGuarded(db, job);
    PlacedAt(db, k);
    if Guard(db, i) {
      var n := |Effects(db, i)|;
      WholeShape(db, i);
      DueStep(db, k, n, job);
      LogStep(db, i, n);
      NewJobsStep(s, db, After(db, i, n), JobOf(i));
    }
    hide Effects, ApplyAll, After;
  }

  /** One instruction in which the run is cut or panics. */
  lemma InstrLogsCut(job: Job, s: Db, k: nat, db: Db, n: nat)
    requires k < |PROGRAM| && LogTracks(job, s, k, db) && Reached(db, k)
    requires n <= |Effects(db, PROGRAM[k])| && (n < |Effects(db, PROGRAM[k])| || Panics(db, PROGRAM[k]))
    ensures Logged(job, s, ApplyAll(db, Effects(db, PROGRAM[k])[..n]))
  {
    hide Due, Turn, Reached, JobWrites, JobPanics, WriteAll, NewJobs;
    var i := PROGRAM[k];
    TurnIsOnly(k, job);
    DueIsGuarded(db, job);
    PlacedAt(db, k);
    CutShape(db, i, n);
    DueStep(db, k, n, job);
    LogStep(db, i, n);
    var c := After(db, i, n);
    NewJobsStep(s, db, c, if n > |Work(db, i)| then JobOf(i) else []);
    assert db.log + [] == db.log && NewJobs(s, db) + [] == NewJobs(s, db);
    hide Effects, ApplyAll, After;
  }

  lemma {:induction false} RunLogs(job: Job, s: Db, k: nat, db: Db, n: nat)
    requires k <= |PROGRAM| && LogTracks(job, s, k, db) && Reached(db, k)
    ensures Logged(job, s, Run(db, PROGRAM[k..], n).0)
    decreases |PROGRAM| - k
  {
    hide Logged, LogTracks, Effects, ApplyAll, Panics, Reached;
    var prog := PROGRAM[k..];
    if k == |PROGRAM| {
      assert prog == [];
      LogsToEnd(job, s, db);
    } else {
      assert prog[0] == PROGRAM[k] && prog[1..] == PROGRAM[k + 1..];
      var es := Effects(db, PROGRAM[k]);
      assert es[..|es|] == es;
      if |es| > n {
        InstrLogsCut(job, s, k, db, n);
      } else if Panics(db, PROGRAM[k]) {
        InstrLogsCut(job, s, k, db, |es|);
      } else {
        InstrLogs(job, s, k, db);
        InstrDone(db, k);
        RunLogs(job, s, k + 1, ApplyAll(db, es), n - |es|);
      }
    }
  }

  lemma LogsToEnd(job: Job, s: Db, db: Db)
    requires LogTracks(job, s, |PROGRAM|, db)
    ensures Logged(job, s, db)
  {
    hide Due;
  }

  lemma LogsAtOnce(job: Job, db: Db)
    ensures LogTracks(job, db, 0, db) && Logged(job, db, db)
  {
    hide Due;
  }

  lemma MigrateLogs(db: Db, n: nat, job: Job)
    ensures Logged(job, db, Migrate(db, n).0)
  {
    hide Logged, LogTracks, Run;
    LogsAtOnce(job, db);
    if db.version >= 11 {
      assert PROGRAM[0..] == PROGRAM;
      RunLogs(job, db, 0, db, n);
    }
  }

  lemma {:induction false} StartsLog(db: Db, cuts: seq<nat>, job: Job)
    ensures Logged(job, db, Starts(db, cuts))
    decreases |cuts|
  {
    hide Migrate, Logged;
    LogsAtOnce(job, db);
    if cuts != [] {
      var n := |cuts| - 1;
      var before := Starts(db, cuts[..n]);
      StartsLog(db, cuts[..n], job);
      MigrateLogs(before, cuts[n], job);
      LoggedTransitive(job, db, before, Starts(db, cuts));
    }
  }

  lemma NothingDueAtEnd(db: Db, job: Job)
    requires IsCurrent(db)
    ensures !Due(db, job)
  {
    if job.Fix? {
      NoOtherMarker(job.m);
    }
  }

  /** From any version 11 to 19 and any markers, after any starts cut after any
      write, until a start completes: exactly the jobs that were due are done. */
  lemma WhatRuns(db: Db, cuts: seq<nat>, n: nat, job: Job)
    requires 11 <= db.version <= DATABASE_VERSION && Migrate(Starts(db, cuts), n).1 == Migrated
    ensures var d := Migrate(Starts(db, cuts), n).0;
            db.log <= d.log && (job in d.log[|db.log|..] <==> Due(db, job))
  {
    hide Migrate, Starts, Forward, Due, IsCurrent;
    var last := Starts(db, cuts);
    var d := Migrate(last, n).0;
    CompletedIsCurrent(db, cuts, n);
    StartsLog(db, cuts, job);
    MigrateLogs(last, n, job);
    LoggedTransitive(job, db, last, d);
    NothingDueAtEnd(d, job);
  }

  // ------------------------------------------------------------- the joined table

  /** The writes of a pass that removes doubled separators. */
  function JoinedWrites(t: DoubleSeparatorRepair.Table): seq<DoubleSeparatorRepair.Write> {
    DoubleSeparatorRepair.Writes(DoubleSeparatorRepair.RowsOf(t))
  }

  /** The key of the row that is deleted but not inserted after w of them. */
  function TornBy(ws: seq<DoubleSeparatorRepair.Write>, w: nat): Option<DoubleSeparatorRepair.Key>
    requires w <= |ws|
  {
    if w > 0 && ws[w - 1].Del? then Some(ws[w - 1].key) else None
  }

  /** From a to b the members' migration did not get at the joined table: it is
      not needed, or its turn has not come. */
  predicate Calm(a: Db, b: Db) {
    !Needed(a, RoomUserIdJoined) || Needed(b, BadDoubleSeparator)
  }

  /** What a run from s to d did to the joined table: a marked repair stays
      marked, one that panics stays unmarked, and where it is calm the table is
      that of a pass cut after w writes: none if the repair is not needed, all if
      it was marked. */
  ghost predicate JoinedEnd(s: Db, d: Db, w: nat, torn: Option<DoubleSeparatorRepair.Key>) {
    && (!Needed(s, BadDoubleSeparator) ==> !Needed(d, BadDoubleSeparator))
    && (Needed(s, BadDoubleSeparator) && JobPanics(s.tables, BadDoubleSeparator) ==> Needed(d, BadDoubleSeparator))
    && (Calm(s, d) ==>
      var ws := JoinedWrites(s.tables.joined);
      && w <= |ws| && d.tables.joined == DoubleSeparatorRepair.Apply(s.tables.joined, ws[..w])
      && (!Needed(s, BadDoubleSeparator) ==> w == 0)
      && (Needed(s, BadDoubleSeparator) && !Needed(d, BadDoubleSeparator) ==> w == |ws|)
      && torn == TornBy(ws, w))
  }

  /** The same before instruction k of a run without a panic. */
  ghost predicate JoinedTracks(s: Db, k: nat, db: Db) {
    && (k <= Position(RoomUserIdJoined) ==> Pristine(RoomUserIdJoined, s, db))
    && (k > Position(RoomUserIdJoined) && !Needed(s, RoomUserIdJoined) ==> !Needed(db, RoomUserIdJoined))
    && if k <= Position(BadDoubleSeparator) then Pristine(BadDoubleSeparator, s, db)
       else
         && !Needed(db, BadDoubleSeparator)
         && (Needed(s, BadDoubleSeparator) ==> !JobPanics(s.tables, BadDoubleSeparator))
         && (k <= Position(RoomUserIdJoined) || !Needed(s, RoomUserIdJoined) ==>
              db.tables.joined == if Needed(s, BadDoubleSeparator)
                                  then DoubleSeparatorRepair.Apply(s.tables.joined, JoinedWrites(s.tables.joined))
                                  else s.tables.joined)
  }

  /** A pass done to its end, or not begun, is not torn. */
  lemma NotTornAtEnds(t: DoubleSeparatorRepair.Table)
    ensures var ws := JoinedWrites(t);
            && TornBy(ws, |ws|) == None && ws[..|ws|] == ws && ws[..0] == []
            && DoubleSeparatorRepair.Apply(t, ws[..0]) == t
  {
    hide DoubleSeparatorRepair.Writes, DoubleSeparatorRepair.RowsOf;
    DoubleSeparatorRepair.EndsWithPut(DoubleSeparatorRepair.RowsOf(t));
  }

  /** The turn of the repair, cut or not. */
  lemma JoinedTurn(db: Db, n: nat)
    requires Needed(db, BadDoubleSeparator) && n <= |Effects(db, Marked(BadDoubleSeparator))|
    ensures var ws, c := JoinedWrites(db.tables.joined), After(db, Marked(BadDoubleSeparator), n);
            && |Work(db, Marked(BadDoubleSeparator))| == |ws|
            && c.tables.joined == DoubleSeparatorRepair.Apply(db.tables.joined, ws[..if n <= |ws| then n else |ws|])
            && (0 < n <= |ws| ==> DeletedBy(Effects(db, Marked(BadDoubleSeparator))[n - 1]) == TornBy(ws, n))
            && (n > |ws| ==> DeletedBy(Effects(db, Marked(BadDoubleSeparator))[n - 1]) == None)
  {
    hide DoubleSeparatorRepair.Apply, DoubleSeparatorRepair.Writes, DoubleSeparatorRepair.RowsOf, WriteAll, JobPanics;
    var i := Marked(BadDoubleSeparator);
    var ws, work := JoinedWrites(db.tables.joined), Work(db, i);
    var j := if n <= |ws| then n else |ws|;
    CutWrites(db.tables, BadDoubleSeparator, j);
    assert work == AsJoined(ws) && work[..|ws|] == work;
    if 0 < n <= |ws| {
      assert Effects(db, i)[n - 1] == Table(work[n - 1]);
    } else if n > |ws| {
      assert Effects(db, i)[n - 1] == Closing(i)[n - 1 - |ws|];
    }
  }

  /** A run cut in the turn of the repair, or panicking in it. */
  lemma JoinedTurnCut(s: Db, db: Db, n: nat) returns (w: nat)
    requires Pristine(BadDoubleSeparator, s, db)
    requires n <= |Effects(db, Marked(BadDoubleSeparator))|
    requires n < |Effects(db, Marked(BadDoubleSeparator))| || Panics(db, Marked(BadDoubleSeparator))
    ensures var i := Marked(BadDoubleSeparator);
            JoinedEnd(s, ApplyAll(db, Effects(db, i)[..n]), w, if n > 0 then DeletedBy(Effects(db, i)[n - 1]) else None)
  {
    hide DoubleSeparatorRepair.Apply, DoubleSeparatorRepair.Writes, DoubleSeparatorRepair.RowsOf, WriteAll, JobPanics,
         JobWrites, Position;
    var i := Marked(BadDoubleSeparator);
    assert PROGRAM[3] == i && Position(BadDoubleSeparator) == 3 by {
      PositionIsOnly(3);
    }
    assert Needed(db, BadDoubleSeparator);
    CutShape(db, i, n);
    JoinedTurn(db, n);
    StaysNeeded(db, 3, n, BadDoubleSeparator);
    var ws := JoinedWrites(db.tables.joined);
    NotTornAtEnds(db.tables.joined);
    w := if n <= |ws| then n else |ws|;
    hide Effects, ApplyAll, After;
  }

  /** The turn of the repair, done to its end. */
  lemma JoinedTurnWhole(s: Db, db: Db)
    requires Pristine(BadDoubleSeparator, s, db) && Pristine(RoomUserIdJoined, s, db)
    requires Reached(db, 3) && !Panics(db, Marked(BadDoubleSeparator))
    ensures JoinedTracks(s, 4, ApplyAll(db, Effects(db, Marked(BadDoubleSeparator))))
  {
    hide DoubleSeparatorRepair.Apply, DoubleSeparatorRepair.Writes, DoubleSeparatorRepair.RowsOf, WriteAll, JobPanics,
         JobWrites, Reached;
    var i := Marked(BadDoubleSeparator);
    var es := Effects(db, i);
    assert es[..|es|] == es && PROGRAM[3] == i;
    StaysPristine(RoomUserIdJoined, s, 3, db, |es|);
    PristinePanics(BadDoubleSeparator, s, db);
    if Needed(db, BadDoubleSeparator) {
      WholeShape(db, i);
      JoinedTurn(db, |es|);
      NotTornAtEnds(db.tables.joined);
    }
    hide Effects, ApplyAll, After;
  }

  /** Another turn, cut or not. */
  lemma OtherTurn(s: Db, k: nat, db: Db, n: nat)
    requires k < |PROGRAM| && k != 3 && JoinedTracks(s, k, db) && Reached(db, k)
    requires n <= |Effects(db, PROGRAM[k])|
    ensures var c := ApplyAll(db, Effects(db, PROGRAM[k])[..n]);
            && (k < 3 ==> Pristine(BadDoubleSeparator, s, c))
            && (k < 4 ==> Pristine(RoomUserIdJoined, s, c))
            && (k >= 4 && !Needed(s, RoomUserIdJoined) ==>
                  !Needed(c, RoomUserIdJoined) && c.tables.joined == db.tables.joined)
            && (k >= 4 ==> !Needed(c, BadDoubleSeparator))
  {
    hide JobWrites, JobPanics, WriteAll, Reached;
    var i := PROGRAM[k];
    assert Position(BadDoubleSeparator) == 3 && Position(RoomUserIdJoined) == 4;
    if k < 3 {
      StaysPristine(BadDoubleSeparator, s, k, db, n);
      StaysPristine(RoomUserIdJoined, s, k, db, n);
    } else if Guard(db, i) {
      PlacedAt(db, k);
      CutShape(db, i, n);
      StaysUnneeded(db, i, n, BadDoubleSeparator);
      if !Needed(s, RoomUserIdJoined) {
        StaysUnneeded(db, i, n, RoomUserIdJoined);
        LaterPasses(k);
        InstrPasses(db, i, n, BadDoubleSeparator);
      }
    }
    hide Effects, ApplyAll, After;
  }

  lemma LaterPasses(k: nat)
    requires 4 <= k < |PROGRAM|
    ensures PROGRAM[k] == Marked(RoomUserIdJoined) || Passes(PROGRAM[k], BadDoubleSeparator)
  {
  }

  lemma {:induction false} RunJoined(s: Db, k: nat, db: Db, n: nat) returns (w: nat)
    requires k <= |PROGRAM| && JoinedTracks(s, k, db) && Reached(db, k)
    ensures JoinedEnd(s, Run(db, PROGRAM[k..], n).0, w, TornAt(db, PROGRAM[k..], n))
    decreases |PROGRAM| - k
  {
    hide JoinedEnd, JoinedTracks, Effects, ApplyAll, Panics, Reached, Pristine;
    var prog := PROGRAM[k..];
    if k == |PROGRAM| {
      assert prog == [];
      DoneAtEnd(s, db);
      w := JoinedAtCut(s, k, db, db);
    } else {
      var i := PROGRAM[k];
      assert prog[0] == i && prog[1..] == PROGRAM[k + 1..];
      var es := Effects(db, i);
      assert es[..|es|] == es;
      if |es| <= n && !Panics(db, i) {
        JoinedNext(s, k, db);
        InstrDone(db, k);
        w := RunJoined(s, k + 1, ApplyAll(db, es), n - |es|);
      } else if k == 3 {
        PristineAtTurn(s, db);
        if |es| > n {
          w := JoinedTurnCut(s, db, n);
        } else {
          w := JoinedTurnCut(s, db, |es|);
          PanicIsNotTorn(db);
        }
      } else {
        OnlyRepairIsTorn(k);
        w := OtherTurnCut(s, k, db, if |es| > n then n else |es|);
      }
    }
  }

  lemma DoneAtEnd(s: Db, db: Db)
    requires JoinedTracks(s, |PROGRAM|, db)
    ensures !Needed(db, BadDoubleSeparator)
  {
  }

  lemma PristineAtTurn(s: Db, db: Db)
    requires JoinedTracks(s, 3, db)
    ensures Pristine(BadDoubleSeparator, s, db) && Pristine(RoomUserIdJoined, s, db)
  {
    assert Position(BadDoubleSeparator) == 3 && Position(RoomUserIdJoined) == 4;
  }

  lemma OnlyRepairIsTorn(k: nat)
    requires k < |PROGRAM|
    ensures PROGRAM[k] == Marked(BadDoubleSeparator) <==> k == 3
  {
  }

  /** A panic comes after the last write. */
  lemma PanicIsNotTorn(db: Db)
    requires Panics(db, Marked(BadDoubleSeparator))
    ensures var es := Effects(db, Marked(BadDoubleSeparator));
            |es| > 0 ==> DeletedBy(es[|es| - 1]) == None
  {
    hide DoubleSeparatorRepair.Apply, DoubleSeparatorRepair.Writes, DoubleSeparatorRepair.RowsOf, WriteAll;
    WholeShape(db, Marked(BadDoubleSeparator));
    JoinedTurn(db, |Effects(db, Marked(BadDoubleSeparator))|);
    NotTornAtEnds(db.tables.joined);
    hide Effects, ApplyAll, After;
  }

  lemma JoinedNext(s: Db, k: nat, db: Db)
    requires k < |PROGRAM| && JoinedTracks(s, k, db) && Reached(db, k) && !Panics(db, PROGRAM[k])
    ensures JoinedTracks(s, k + 1, ApplyAll(db, Effects(db, PROGRAM[k])))
  {
    hide Effects, ApplyAll, Panics, Reached, Pristine, JobPanics;
    var es := Effects(db, PROGRAM[k]);
    assert es[..|es|] == es;
    assert Position(BadDoubleSeparator) == 3 && Position(RoomUserIdJoined) == 4;
    if k == 3 {
      assert PROGRAM[3] == Marked(BadDoubleSeparator);
      JoinedTurnWhole(s, db);
    } else {
      OtherTurn(s, k, db, |es|);
    }
  }

  lemma OtherTurnCut(s: Db, k: nat, db: Db, n: nat) returns (w: nat)
    requires k < |PROGRAM| && k != 3 && JoinedTracks(s, k, db) && Reached(db, k)
    requires n <= |Effects(db, PROGRAM[k])|
    ensures JoinedEnd(s, ApplyAll(db, Effects(db, PROGRAM[k])[..n]), w, None)
  {
    hide Effects, ApplyAll, Reached, JoinedEnd;
    OtherTurn(s, k, db, n);
    w := JoinedAtCut(s, k, db, ApplyAll(db, Effects(db, PROGRAM[k])[..n]));
  }

  /** Outside the turn of the repair the table is as before it or as after it. */
  lemma JoinedAtCut(s: Db, k: nat, db: Db, c: Db) returns (w: nat)
    requires k <= |PROGRAM| && k != 3 && JoinedTracks(s, k, db)
    requires k < 3 ==> Pristine(BadDoubleSeparator, s, c)
    requires k >= 4 && !Needed(s, RoomUserIdJoined) ==> c.tables.joined == db.tables.joined
    requires k >= 4 ==> !Needed(c, BadDoubleSeparator)
    ensures JoinedEnd(s, c, w, None)
  {
    hide DoubleSeparatorRepair.Apply, DoubleSeparatorRepair.Writes, DoubleSeparatorRepair.RowsOf, JobPanics,
         JoinedWrites;
    assert Position(BadDoubleSeparator) == 3 && Position(RoomUserIdJoined) == 4;
    NotTornAtEnds(s.tables.joined);
    w := if k >= 4 && Needed(s, BadDoubleSeparator) then |JoinedWrites(s.tables.joined)| else 0;
  }

  /** The key of the row that a start tears, if it does. */
  function TornStart(db: Db, n: nat): Option<DoubleSeparatorRepair.Key> {
    if db.version >= 11 then TornAt(db, PROGRAM, n) else None
  }

  lemma StartJoined(db: Db, n: nat) returns (w: nat)
    ensures JoinedEnd(db, Migrate(db, n).0, w, TornStart(db, n))
  {
    hide Run, TornAt, JoinedEnd;
    if db.version >= 11 {
      assert PROGRAM[0..] == PROGRAM;
      w := RunJoined(db, 0, db, n);
    } else {
      w := JoinedAtCut(db, 0, db, db);
    }
  }

  // ------------------------------------------------------ panics over many starts

  /** A start, wherever it is cut, neither makes nor cures a panic. */
  lemma StartKeepsPanic(db: Db, n: nat, m: Marker)
    ensures var d := Migrate(db, n).0;
            Needed(d, m) && JobPanics(d.tables, m) <==> Needed(db, m) && JobPanics(db.tables, m)
  {
    hide Migrate, TornStart, SameTarget, IsTarget, Untouched;
    if m == BadDoubleSeparator {
      var w := StartJoined(db, n);
      var t := db.tables.joined;
      if Needed(Migrate(db, n).0, m) {
        if DoubleSeparatorRepair.Separated(t) {
          DoubleSeparatorRepair.CutStaysSeparated(t, w);
        } else {
          DoubleSeparatorRepair.PanicStays(t, DoubleSeparatorRepair.RowsOf(t), w);
        }
      }
      hide DoubleSeparatorRepair.Apply, DoubleSeparatorRepair.Writes, DoubleSeparatorRepair.RowsOf,
           DoubleSeparatorRepair.Separated;
    } else {
      MigrateAdvances(db, n, m);
      hide JobPanics;
    }
  }

  lemma {:induction false} StartsKeepPanic(db: Db, cuts: seq<nat>)
    ensures SomePanic(Starts(db, cuts)) <==> SomePanic(db)
    decreases |cuts|
  {
    hide Migrate, JobPanics, Needed;
    if cuts != [] {
      var n := |cuts| - 1;
      var before := Starts(db, cuts[..n]);
      StartsKeepPanic(db, cuts[..n]);
      forall m: Marker
        ensures Needed(Starts(db, cuts), m) && JobPanics(Starts(db, cuts).tables, m) <==>
                Needed(before, m) && JobPanics(before.tables, m)
      {
        StartKeepsPanic(before, cuts[n], m);
      }
    }
  }

  /** However often it is interrupted, after whatever write, the next whole start
      reaches the version and the markers of a new database, exactly if no needed
      migration would have panicked on the original tables. */
  lemma InterruptedRunsConverge(db: Db, cuts: seq<nat>, n: nat)
    requires 11 <= db.version <= DATABASE_VERSION && n >= Room(Starts(db, cuts), PROGRAM)
    ensures var (d, outcome) := Migrate(Starts(db, cuts), n);
            && outcome == (if SomePanic(db) then Panicked else Migrated)
            && (!SomePanic(db) ==> IsCurrent(d)) && Forward(db, d)
  {
    hide Migrate, Room, SomePanic, Starts, Forward;
    StartsKeepPanic(db, cuts);
    StillSupported(db, cuts);
    CompletedIsCurrent(db, cuts, n);
    WholeRun(Starts(db, cuts), n);
  }

  /** And when a start completes, each repaired table, that of doubled separators
      aside, is what one uninterrupted repair makes of the original one, if the
      repair was needed, else as it was. */
  lemma InterruptedRepairsConverge(db: Db, cuts: seq<nat>, n: nat, m: Marker)
    requires 11 <= db.version <= DATABASE_VERSION && m != BadDoubleSeparator
    requires Migrate(Starts(db, cuts), n).1 == Migrated
    ensures var d := Migrate(Starts(db, cuts), n).0;
            if Needed(db, m) then IsTarget(m, db.tables, d.tables) else Untouched(m, db.tables, d.tables)
  {
    hide Migrate, Starts, IsTarget, SameTarget, JobPanics, Forward;
    var last := Starts(db, cuts);
    var d := Migrate(last, n).0;
    StartsAdvance(db, cuts, m);
    MigrateAdvances(last, n, m);
    AdvancesTransitive(m, db, last, d);
    CompletedIsCurrent(db, cuts, n);
    NoOtherMarker(m);
    if Needed(db, m) {
      TargetReached(m, db.tables, d.tables);
    }
  }

  /** The same said of each table: the repair of referenced events and that of read
      receipts are repeated below version 17, marked or not; the password table is
      split only without its marker. */
  lemma RepairedTables(db: Db, cuts: seq<nat>, n: nat)
    requires 11 <= db.version <= DATABASE_VERSION && Migrate(Starts(db, cuts), n).1 == Migrated
    ensures var t, u := db.tables, Migrate(Starts(db, cuts), n).0.tables;
            && u.referenced == (if db.version < 17 || ReferencedEvents !in db.markers
                                then KeyRepairs.Repaired(t.referenced) else t.referenced)
            && u.receipts == (if db.version < 17 || ReadReceipts !in db.markers
                              then ReceiptRepair.Keep(t.receipts, ReceiptRepair.Nothing) else t.receipts)
            && u.users == (if SplitUserIdPassword !in db.markers
                           then PasswordSplit.Split(t.kinds, t.users) else t.users)
  {
    hide Migrate, Starts, KeyRepairs.Repaired, ReceiptRepair.Keep, PasswordSplit.Split;
    InterruptedRepairsConverge(db, cuts, n, ReferencedEvents);
    InterruptedRepairsConverge(db, cuts, n, ReadReceipts);
    InterruptedRepairsConverge(db, cuts, n, SplitUserIdPassword);
  }

  // ------------------------------------------ the table that can be torn, exactly

  /** A start that tears no row, or one whose repaired key has the same value. */
  predicate HarmlessStart(db: Db, n: nat) {
    var k := TornStart(db, n);
    k.Some? ==>
      DoubleSeparatorRepair.Get(db.tables.joined, DoubleSeparatorRepair.Fixed(k.value))
        == DoubleSeparatorRepair.Get(db.tables.joined, k.value)
  }

  /** The repair does not panic on the table, and one pass is enough. */
  ghost predicate Fit(t: DoubleSeparatorRepair.Table) {
    DoubleSeparatorRepair.Separated(t) && DoubleSeparatorRepair.NoTripled(t)
  }

  lemma LaterAtOnce(t: DoubleSeparatorRepair.Table)
    ensures DoubleSeparatorRepair.Later(t, t)
  {
    hide DoubleSeparatorRepair.Shifted, DoubleSeparatorRepair.Doubled;
  }

  /** What a pass cut after w writes makes of a table. */
  lemma PassIff(t: DoubleSeparatorRepair.Table, w: nat)
    requires Fit(t) && w <= |JoinedWrites(t)|
    ensures var ws := JoinedWrites(t);
            var c := DoubleSeparatorRepair.Apply(t, ws[..w]);
            && Fit(c) && DoubleSeparatorRepair.Later(t, c)
            && ((forall x :: DoubleSeparatorRepair.Shifted(t, x) == DoubleSeparatorRepair.Shifted(c, x)) <==>
                (TornBy(ws, w).Some? ==>
                  DoubleSeparatorRepair.Get(t, DoubleSeparatorRepair.Fixed(ws[w - 1].key))
                    == DoubleSeparatorRepair.Get(t, ws[w - 1].key)))
            && (w == |ws| ==> DoubleSeparatorRepair.IsShift(c, t) && DoubleSeparatorRepair.IsShift(c, c))
  {
    hide DoubleSeparatorRepair.Apply, DoubleSeparatorRepair.Writes, DoubleSeparatorRepair.RowsOf,
         DoubleSeparatorRepair.Separated, DoubleSeparatorRepair.NoTripled, DoubleSeparatorRepair.Later,
         DoubleSeparatorRepair.Shifted, DoubleSeparatorRepair.Fixed;
    var ws := JoinedWrites(t);
    DoubleSeparatorRepair.CutStaysSeparated(t, w);
    DoubleSeparatorRepair.CutKeepsMeaning(t, w);
    DoubleSeparatorRepair.CutIsLater(t, w);
    if w > 0 && ws[w - 1].Del? {
      DoubleSeparatorRepair.TornIff(t, w);
    }
    if w == |ws| {
      assert ws[..w] == ws;
      DoubleSeparatorRepair.FullRepair(t, DoubleSeparatorRepair.RowsOf(t));
      DoubleSeparatorRepair.WholeIsSettled(t, DoubleSeparatorRepair.Apply(t, ws));
    }
  }

  /** As long as the members' migration does not get at the table: a start keeps
      what the joined table is to become exactly if it is harmless. */
  lemma StartKeepsJoinedIff(db: Db, n: nat)
    requires Fit(db.tables.joined) && Calm(db, Migrate(db, n).0)
    ensures var d := Migrate(db, n).0;
            && (SameTarget(BadDoubleSeparator, db.tables, d.tables) <==> HarmlessStart(db, n))
            && Fit(d.tables.joined) && DoubleSeparatorRepair.Later(db.tables.joined, d.tables.joined)
            && (!Needed(db, BadDoubleSeparator) ==>
                  !Needed(d, BadDoubleSeparator) && d.tables.joined == db.tables.joined)
            && (Needed(db, BadDoubleSeparator) && !Needed(d, BadDoubleSeparator) ==>
                  DoubleSeparatorRepair.IsShift(d.tables.joined, d.tables.joined))
  {
    hide Migrate, TornStart, DoubleSeparatorRepair.Apply, DoubleSeparatorRepair.Later, DoubleSeparatorRepair.Shifted,
         DoubleSeparatorRepair.IsShift, DoubleSeparatorRepair.Fixed, DoubleSeparatorRepair.Get, Fit, JoinedWrites;
    var w := StartJoined(db, n);
    PassIff(db.tables.joined, w);
    NotTornAtEnds(db.tables.joined);
  }

  predicate AllHarmless(db: Db, cuts: seq<nat>) {
    forall i :: 0 <= i < |cuts| ==> HarmlessStart(Starts(db, cuts[..i]), cuts[i])
  }

  lemma {:induction false} StartsForwardFrom(db: Db, cuts: seq<nat>, i: nat)
    requires i <= |cuts|
    ensures Forward(Starts(db, cuts[..i]), Starts(db, cuts))
    decreases |cuts|
  {
    hide Migrate, Forward;
    var n := |cuts| - 1;
    if i == |cuts| {
      assert cuts[..i] == cuts;
      ForwardAtOnce(Starts(db, cuts));
    } else {
      StartsForwardFrom(db, cuts[..n], i);
      assert cuts[..n][..i] == cuts[..i];
      MigrateForward(Starts(db, cuts[..n]), cuts[n]);
      ForwardTransitive(Starts(db, cuts[..i]), Starts(db, cuts[..n]), Starts(db, cuts));
    }
  }

  lemma ForwardAtOnce(db: Db)
    ensures Forward(db, db)
  {
  }

  /** What is calm in all is calm in each part. */
  lemma CalmParts(db: Db, cuts: seq<nat>, i: nat, j: nat)
    requires i <= j <= |cuts| && Calm(db, Starts(db, cuts))
    ensures Calm(Starts(db, cuts[..i]), Starts(db, cuts[..j])) && Calm(db, Starts(db, cuts[..j]))
  {
    hide Starts;
    StartsForward(db, cuts[..i]);
    StartsForwardFrom(db, cuts, j);
  }

  /** Bad rows only go away from one start to the next. */
  lemma {:induction false} StartsLater(db: Db, cuts: seq<nat>, i: nat)
    requires Fit(db.tables.joined) && Calm(db, Starts(db, cuts)) && i <= |cuts|
    ensures Fit(Starts(db, cuts).tables.joined) && Fit(Starts(db, cuts[..i]).tables.joined)
    ensures DoubleSeparatorRepair.Later(Starts(db, cuts[..i]).tables.joined, Starts(db, cuts).tables.joined)
    decreases |cuts|
  {
    hide Fit, Migrate, DoubleSeparatorRepair.Later, Calm, SameTarget, Starts;
    hide DoubleSeparatorRepair.IsShift, HarmlessStart;
    if cuts == [] {
      NoStart(db);
      assert cuts[..i] == cuts;
      LaterAtOnce(db.tables.joined);
    } else {
      var n := |cuts| - 1;
      var before := Starts(db, cuts[..n]);
      assert cuts[..n + 1] == cuts;
      OneMoreStart(db, cuts, n);
      CalmParts(db, cuts, n, n + 1);
      CalmParts(db, cuts, n, n);
      StartsLater(db, cuts[..n], if i <= n then i else n);
      StartKeepsJoinedIff(before, cuts[n]);
      if i <= n {
        assert cuts[..n][..i] == cuts[..i];
        DoubleSeparatorRepair.LaterTransitive(
          Starts(db, cuts[..i]).tables.joined, before.tables.joined, Starts(db, cuts).tables.joined);
      } else {
        assert cuts[..i] == cuts;
        LaterAtOnce(Starts(db, cuts).tables.joined);
      }
    }
  }

  lemma NoStart(db: Db)
    ensures Starts(db, []) == db
  {
  }

  /** After harmless starts the table is to become the same, and has become it if
      the repair is marked. */
  lemma {:induction false} HarmlessKeeps(db: Db, cuts: seq<nat>)
    requires Fit(db.tables.joined) && Calm(db, Starts(db, cuts)) && AllHarmless(db, cuts)
    ensures var last := Starts(db, cuts);
            && Fit(last.tables.joined) && SameTarget(BadDoubleSeparator, db.tables, last.tables)
            && (Needed(db, BadDoubleSeparator) && !Needed(last, BadDoubleSeparator) ==>
                  DoubleSeparatorRepair.IsShift(last.tables.joined, last.tables.joined))
    decreases |cuts|
  {
    hide Migrate, HarmlessStart, Fit, DoubleSeparatorRepair.Later, DoubleSeparatorRepair.Shifted,
         DoubleSeparatorRepair.IsShift, Calm;
    if cuts != [] {
      var n := |cuts| - 1;
      var before := Starts(db, cuts[..n]);
      forall i | 0 <= i < n
        ensures HarmlessStart(Starts(db, cuts[..n][..i]), cuts[..n][i])
      {
        assert cuts[..n][..i] == cuts[..i];
      }
      assert cuts[..n + 1] == cuts;
      CalmParts(db, cuts, n, n + 1);
      CalmParts(db, cuts, n, n);
      HarmlessKeeps(db, cuts[..n]);
      StartKeepsJoinedIff(before, cuts[n]);
    }
  }

  lemma SameInBetween(db: Db, cuts: seq<nat>, final: DoubleSeparatorRepair.Table, i: nat)
    requires Fit(db.tables.joined) && Fit(final) && Calm(db, Starts(db, cuts)) && i <= |cuts|
    requires DoubleSeparatorRepair.Later(Starts(db, cuts).tables.joined, final)
    requires forall x :: DoubleSeparatorRepair.Shifted(final, x) == DoubleSeparatorRepair.Shifted(db.tables.joined, x)
    ensures SameTarget(BadDoubleSeparator, db.tables, Starts(db, cuts[..i]).tables)
  {
    hide Migrate, DoubleSeparatorRepair.Later, DoubleSeparatorRepair.Shifted, Calm;
    var a := Starts(db, cuts[..i]);
    assert cuts[..i][..0] == [] && Starts(db, []) == db;
    CalmParts(db, cuts, i, i);
    hide Starts;
    StartsLater(db, cuts[..i], 0);
    StartsLater(db, cuts, i);
    DoubleSeparatorRepair.LaterTransitive(a.tables.joined, Starts(db, cuts).tables.joined, final);
    DoubleSeparatorRepair.LossStays(db.tables.joined, a.tables.joined, final);
  }

  lemma OneMoreStart(db: Db, cuts: seq<nat>, i: nat)
    requires i < |cuts|
    ensures Starts(db, cuts[..i + 1]) == Migrate(Starts(db, cuts[..i]), cuts[i]).0
  {
    hide Migrate;
    assert cuts[..i + 1][..i] == cuts[..i];
  }

  /** If nothing was lost in the end, the i-th start was harmless. */
  lemma NothingLostSoHarmless(db: Db, cuts: seq<nat>, final: DoubleSeparatorRepair.Table, i: nat)
    requires Fit(db.tables.joined) && Fit(final) && Calm(db, Starts(db, cuts)) && i < |cuts|
    requires DoubleSeparatorRepair.Later(Starts(db, cuts).tables.joined, final)
    requires forall x :: DoubleSeparatorRepair.Shifted(final, x) == DoubleSeparatorRepair.Shifted(db.tables.joined, x)
    ensures HarmlessStart(Starts(db, cuts[..i]), cuts[i])
  {
    hide Starts, Migrate, HarmlessStart, DoubleSeparatorRepair.Later, DoubleSeparatorRepair.Shifted, Calm, Fit,
         DoubleSeparatorRepair.IsShift;
    var a := Starts(db, cuts[..i]);
    OneMoreStart(db, cuts, i);
    CalmParts(db, cuts, i, i + 1);
    StartsLater(db, cuts, i);
    StartKeepsJoinedIff(a, cuts[i]);
    SameInBetween(db, cuts, final, i);
    SameInBetween(db, cuts, final, i + 1);
  }

  /** A table that a repair has settled is the target of another exactly if no
      start before lost anything. */
  lemma SettledIff(db: Db, cuts: seq<nat>, final: DoubleSeparatorRepair.Table)
    requires Fit(db.tables.joined) && Fit(final) && Calm(db, Starts(db, cuts))
    requires DoubleSeparatorRepair.Later(Starts(db, cuts).tables.joined, final)
    requires DoubleSeparatorRepair.IsShift(final, final)
    requires forall x :: DoubleSeparatorRepair.Shifted(final, x)
                           == DoubleSeparatorRepair.Shifted(Starts(db, cuts).tables.joined, x)
    ensures DoubleSeparatorRepair.IsShift(final, db.tables.joined) <==> AllHarmless(db, cuts)
  {
    hide Starts, HarmlessStart, DoubleSeparatorRepair.Later, DoubleSeparatorRepair.Shifted, Fit, Calm;
    if DoubleSeparatorRepair.IsShift(final, db.tables.joined) {
      forall x
        ensures DoubleSeparatorRepair.Shifted(final, x) == DoubleSeparatorRepair.Shifted(db.tables.joined, x)
      {
        assert DoubleSeparatorRepair.Get(final, x) == DoubleSeparatorRepair.Shifted(final, x);
      }
      forall i | 0 <= i < |cuts|
        ensures HarmlessStart(Starts(db, cuts[..i]), cuts[i])
      {
        NothingLostSoHarmless(db, cuts, final, i);
      }
    }
    if AllHarmless(db, cuts) {
      HarmlessKeeps(db, cuts);
      forall x
        ensures DoubleSeparatorRepair.Get(final, x) == DoubleSeparatorRepair.Shifted(db.tables.joined, x)
      {
        assert DoubleSeparatorRepair.Get(final, x) == DoubleSeparatorRepair.Shifted(final, x);
      }
    }
  }

  /** The program up to the repair of doubled separators. */
  const EARLY: seq<Instr> := PROGRAM[..4]

  lemma {:induction false} EarlyTracks(s: Db, k: nat, db: Db, n: nat)
    requires k <= 4 && JoinedTracks(s, k, db) && Reached(db, k) && n >= Room(db, PROGRAM[k..4])
    requires Needed(s, BadDoubleSeparator) ==> !JobPanics(s.tables, BadDoubleSeparator)
    ensures var (d, end) := Run(db, PROGRAM[k..4], n);
            end.Whole? && JoinedTracks(s, 4, d) && Reached(d, 4)
    decreases 4 - k
  {
    hide JoinedTracks, Effects, ApplyAll, Panics, Reached, Pristine, JobPanics, Needed;
    var prog := PROGRAM[k..4];
    if k == 4 {
      assert prog == [];
    } else {
      assert prog[0] == PROGRAM[k] && prog[1..] == PROGRAM[k + 1..4];
      EarlyDoesNotPanic(s, k, db);
      JoinedNext(s, k, db);
      InstrDone(db, k);
      EarlyTracks(s, k + 1, ApplyAll(db, Effects(db, PROGRAM[k])), n - |Effects(db, PROGRAM[k])|);
    }
  }

  lemma EarlyDoesNotPanic(s: Db, k: nat, db: Db)
    requires k < 4 && JoinedTracks(s, k, db)
    requires Needed(s, BadDoubleSeparator) ==> !JobPanics(s.tables, BadDoubleSeparator)
    ensures !Panics(db, PROGRAM[k])
  {
    assert Position(BadDoubleSeparator) == 3;
    if k == 3 {
      PristinePanics(BadDoubleSeparator, s, db);
    }
  }

  lemma {:induction false} RunSplits(db: Db, a: seq<Instr>, b: seq<Instr>, n: nat)
    requires n >= Room(db, a) && Run(db, a, n).1.Whole?
    ensures Run(db, a + b, n) == Run(Run(db, a, n).0, b, n - Room(db, a))
    decreases |a|
  {
    hide Effects, ApplyAll, Panics;
    if a == [] {
      assert a + b == b;
    } else {
      assert (a + b)[0] == a[0] && (a + b)[1..] == a[1..] + b;
      RunSplits(ApplyAll(db, Effects(db, a[0])), a[1..], b, n - |Effects(db, a[0])|);
    }
  }

  /** Where one pass is enough: after any starts, cut anywhere, at the moment a
      later start marks the repair of doubled separators the joined table is what
      one uninterrupted repair would have made of the original, exactly if every
      start was harmless. The rest of the program goes on from there. */
  lemma JoinedAtMarkIff(db: Db, cuts: seq<nat>, n: nat)
    requires db.version >= 11 && Fit(db.tables.joined) && Needed(Starts(db, cuts), BadDoubleSeparator)
    requires n >= Room(Starts(db, cuts), EARLY)
    ensures var last := Starts(db, cuts);
            var mid := Run(last, EARLY, n).0;
            && BadDoubleSeparator in mid.markers
            && (IsTarget(BadDoubleSeparator, db.tables, mid.tables) <==> AllHarmless(db, cuts))
            && Run(last, PROGRAM, n) == Run(mid, PROGRAM[4..], n - Room(last, EARLY))
  {
    hide Starts, AllHarmless, Run, Room, JoinedWrites, Forward,
         DoubleSeparatorRepair.Apply, DoubleSeparatorRepair.Later, DoubleSeparatorRepair.Shifted,
         DoubleSeparatorRepair.IsShift, DoubleSeparatorRepair.Fixed, DoubleSeparatorRepair.Get;
    var last := Starts(db, cuts);
    assert cuts[..|cuts|] == cuts;
    SupportedStill(db, cuts);
    StartsLater(db, cuts, |cuts|);
    EarlyRun(last, n);
    var t := last.tables.joined;
    NotTornAtEnds(t);
    PassIff(t, |JoinedWrites(t)|);
    SettledIff(db, cuts, Run(last, EARLY, n).0.tables.joined);
  }

  lemma SupportedStill(db: Db, cuts: seq<nat>)
    requires db.version >= 11
    ensures Starts(db, cuts).version >= 11
  {
    StartsForward(db, cuts);
  }

  /** An uninterrupted run up to the repair, which is needed, and the rest. */
  lemma EarlyRun(db: Db, n: nat)
    requires db.version >= 11 && Needed(db, BadDoubleSeparator) && !JobPanics(db.tables, BadDoubleSeparator)
    requires n >= Room(db, EARLY)
    ensures var mid := Run(db, EARLY, n).0;
            && BadDoubleSeparator in mid.markers
            && mid.tables.joined == DoubleSeparatorRepair.Apply(db.tables.joined, JoinedWrites(db.tables.joined))
            && (Needed(mid, RoomUserIdJoined) <==> Needed(db, RoomUserIdJoined))
            && Run(db, PROGRAM, n) == Run(mid, PROGRAM[4..], n - Room(db, EARLY))
  {
    hide Run, Room, DoubleSeparatorRepair.Apply, JoinedWrites, JobPanics;
    assert PROGRAM[0..4] == EARLY && EARLY + PROGRAM[4..] == PROGRAM;
    EarlyTracks(db, 0, db, n);
    RunSplits(db, EARLY, PROGRAM[4..], n);
    assert Position(BadDoubleSeparator) == 3 && Position(RoomUserIdJoined) == 4;
    hide PROGRAM, EARLY, Reached;
  }

  lemma {:induction false} WholeIsNotTorn(db: Db, prog: seq<Instr>, n: nat)
    requires Run(db, prog, n).1.Whole?
    ensures TornAt(db, prog, n) == None
    decreases |prog|
  {
    hide Effects, ApplyAll, Panics;
    if prog != [] {
      WholeIsNotTorn(ApplyAll(db, Effects(db, prog[0])), prog[1..], n - |Effects(db, prog[0])|);
    }
  }

  /** Where also the members' migration is not needed, the same holds for the
      table at the end of a start that completes. */
  lemma JoinedSurvivesIff(db: Db, cuts: seq<nat>, n: nat)
    requires 11 <= db.version <= DATABASE_VERSION && Fit(db.tables.joined)
    requires Needed(db, BadDoubleSeparator) && !Needed(db, RoomUserIdJoined)
    requires Migrate(Starts(db, cuts), n).1 == Migrated
    ensures IsTarget(BadDoubleSeparator, db.tables, Migrate(Starts(db, cuts), n).0.tables) <==> AllHarmless(db, cuts)
  {
    var last := Starts(db, cuts);
    var d := Migrate(last, n).0;
    assert cuts[..|cuts|] == cuts;
    StartsForward(db, cuts);
    StartsLater(db, cuts, |cuts|);
    WholeIsNotTorn(last, PROGRAM, n);
    CompletedIsCurrent(db, cuts, n);
    NoOtherMarker(BadDoubleSeparator);
    assert HarmlessStart(last, n);
    hide Starts, AllHarmless, Forward, Migrate, HarmlessStart, TornAt, DoubleSeparatorRepair.Later,
         DoubleSeparatorRepair.Shifted, DoubleSeparatorRepair.IsShift, Fit;
    StartKeepsJoinedIff(last, n);
    if Needed(last, BadDoubleSeparator) {
      SettledIff(db, cuts, d.tables.joined);
    } else {
      SettledBefore(db, cuts);
    }
  }

  /** A repair that was marked by an earlier start. */
  lemma {:induction false} SettledBefore(db: Db, cuts: seq<nat>)
    requires Fit(db.tables.joined) && Needed(db, BadDoubleSeparator) && !Needed(db, RoomUserIdJoined)
    requires !Needed(Starts(db, cuts), BadDoubleSeparator)
    ensures DoubleSeparatorRepair.IsShift(Starts(db, cuts).tables.joined, db.tables.joined) <==> AllHarmless(db, cuts)
    decreases |cuts|
  {
    assert cuts[..|cuts|] == cuts;
    StartsLater(db, cuts, |cuts|);
    var last := Starts(db, cuts);
    MarkedIsSettled(db, cuts);
    hide Starts, AllHarmless, DoubleSeparatorRepair.Later, DoubleSeparatorRepair.Shifted, Fit;
    SettledIff(db, cuts, last.tables.joined);
  }

  lemma {:induction false} MarkedIsSettled(db: Db, cuts: seq<nat>)
    requires Fit(db.tables.joined) && Needed(db, BadDoubleSeparator) && !Needed(db, RoomUserIdJoined)
    requires !Needed(Starts(db, cuts), BadDoubleSeparator)
    ensures DoubleSeparatorRepair.IsShift(Starts(db, cuts).tables.joined, Starts(db, cuts).tables.joined)
    decreases |cuts|
  {
    hide Migrate, Fit, DoubleSeparatorRepair.Later, DoubleSeparatorRepair.IsShift, SameTarget;
    var n := |cuts| - 1;
    var before := Starts(db, cuts[..n]);
    assert cuts[..n + 1] == cuts && cuts[..n][..n] == cuts[..n];
    CalmParts(db, cuts, n, n + 1);
    StartsLater(db, cuts[..n], n);
    StartKeepsJoinedIff(before, cuts[n]);
    if !Needed(before, BadDoubleSeparator) {
      MarkedIsSettled(db, cuts[..n]);
    }
  }

  // ------------------------------------------------- the members' migration

  /** The joined table after an uninterrupted run: repaired if that was needed,
      then corrected by the members' migration if that was needed. */
  function FinalJoined(db: Db): DoubleSeparatorRepair.Table {
    var t := if Needed(db, BadDoubleSeparator)
             then DoubleSeparatorRepair.Apply(db.tables.joined, JoinedWrites(db.tables.joined))
             else db.tables.joined;
    if Needed(db, RoomUserIdJoined) then DoubleSeparatorRepair.Apply(t, db.tables.fixMembers(t)) else t
  }

  ghost predicate FinalTracks(s: Db, k: nat, db: Db) {
    && JoinedTracks(s, k, db) && db.tables.fixMembers == s.tables.fixMembers
    && (k > 4 ==> db.tables.joined == FinalJoined(s))
  }

  lemma KeepsFixMembers(db: Db, i: Instr, n: nat)
    requires Guard(db, i) && n <= |Effects(db, i)|
    ensures After(db, i, n).tables.fixMembers == db.tables.fixMembers
  {
    hide JobPanics, WriteAll;
    var ws := Work(db, i);
    var j := if n <= |ws| then n else |ws|;
    assert ws[..|ws|] == ws;
    if i.Marked? {
      CutWrites(db.tables, i.m, j);
    } else {
      NothingWritten(db.tables);
      assert ws[..j] == [];
    }
    hide JobWrites, Effects;
  }

  /** The turn of the members' migration. */
  lemma MembersTurn(db: Db)
    requires Needed(db, RoomUserIdJoined)
    ensures ApplyAll(db, Effects(db, Marked(RoomUserIdJoined))).tables.joined ==
            DoubleSeparatorRepair.Apply(db.tables.joined, db.tables.fixMembers(db.tables.joined))
  {
    hide DoubleSeparatorRepair.Apply, WriteAll;
    var i := Marked(RoomUserIdJoined);
    var ws := db.tables.fixMembers(db.tables.joined);
    WholeShape(db, i);
    CutWrites(db.tables, RoomUserIdJoined, |ws|);
    assert ws[..|ws|] == ws && Work(db, i)[..|ws|] == Work(db, i);
    hide Effects, ApplyAll;
  }

  lemma FinalNext(s: Db, k: nat, db: Db)
    requires k < |PROGRAM| && FinalTracks(s, k, db) && Reached(db, k) && !Panics(db, PROGRAM[k])
    ensures FinalTracks(s, k + 1, ApplyAll(db, Effects(db, PROGRAM[k])))
  {
    hide DoubleSeparatorRepair.Apply, JoinedWrites, WriteAll, JobWrites, JobPanics, Panics, Reached;
    var i := PROGRAM[k];
    JoinedNext(s, k, db);
    if Guard(db, i) {
      var n := |Effects(db, i)|;
      WholeShape(db, i);
      KeepsFixMembers(db, i, n);
      if k == 4 {
        assert i == Marked(RoomUserIdJoined);
        MembersTurn(db);
      } else if k > 4 {
        LaterPasses(k);
        PositionIsOnly(4);
        assert i != Marked(RoomUserIdJoined);
        InstrPasses(db, i, n, BadDoubleSeparator);
      }
    }
    assert Position(BadDoubleSeparator) == 3 && Position(RoomUserIdJoined) == 4;
    hide Effects, ApplyAll, After;
  }

  lemma {:induction false} RunFinal(s: Db, k: nat, db: Db, n: nat)
    requires k <= |PROGRAM| && FinalTracks(s, k, db) && Reached(db, k) && Run(db, PROGRAM[k..], n).1.Whole?
    ensures Run(db, PROGRAM[k..], n).0.tables.joined == FinalJoined(s)
    decreases |PROGRAM| - k
  {
    hide JoinedTracks, FinalJoined, Effects, ApplyAll, Panics, Reached;
    var prog := PROGRAM[k..];
    if k < |PROGRAM| {
      assert prog[0] == PROGRAM[k] && prog[1..] == PROGRAM[k + 1..];
      FinalNext(s, k, db);
      InstrDone(db, k);
      RunFinal(s, k + 1, ApplyAll(db, Effects(db, PROGRAM[k])), n - |Effects(db, PROGRAM[k])|);
    }
  }

  /** The members' migration has the last word on the joined table. */
  lemma MembersComeLast(db: Db, n: nat)
    requires Migrate(db, n).1 == Migrated
    ensures Migrate(db, n).0.tables.joined == FinalJoined(db)
  {
    hide FinalJoined, Run;
    assert PROGRAM[0..] == PROGRAM;
    RunFinal(db, 0, db, n);
  }

  lemma {:induction false} NothingToDo(db: Db, prog: seq<Instr>, n: nat)
    requires forall i :: 0 <= i < |prog| ==> !Guard(db, prog[i])
    ensures Run(db, prog, n) == (db, Whole)
    decreases |prog|
  {
    if prog != [] {
      assert !Guard(db, prog[0]);
      assert Effects(db, prog[0]) == [];
      NothingToDo(db, prog[1..], n);
    }
  }

  /** A database in its final state is left alone, even by a run with no room
      for any effect. */
  lemma {:induction false} FurtherRunDoesNothing(db: Db, n: nat)
    requires IsCurrent(db)
    ensures Migrate(db, n) == (db, Migrated)
  {
    hide Run;
    forall k | 0 <= k < |PROGRAM|
      ensures !Guard(db, PROGRAM[k])
    {
      if PROGRAM[k].Marked? {
        NoOtherMarker(PROGRAM[k].m);
      }
    }
    NothingToDo(db, PROGRAM, n);
  }

  // ------------------------------------------------------------- the procedure

  class Database {
    var version: nat
    var markers: set<Marker>
    var joined: DoubleSeparatorRepair.Table
    var referenced: set<KeyRepairs.Key>
    var receipts: ReceiptRepair.ReceiptTable
    var users: PasswordSplit.Tables
    const kinds: PasswordSplit.Kinds
    const fixMembers: DoubleSeparatorRepair.Table -> seq<DoubleSeparatorRepair.Write>
    var log: seq<Job>

    function Contents(): Tables
      reads this
    {
      Tables(joined, referenced, receipts, users, kinds, fixMembers)
    }

    function State(): Db
      reads this
    {
      Db(version, markers, Contents(), log)
    }

    constructor (db: Db)
      ensures State() == db
    {
      version, markers, log := db.version, db.markers, db.log;
      joined, referenced, receipts := db.tables.joined, db.tables.referenced, db.tables.receipts;
      users, kinds, fixMembers := db.tables.users, db.tables.kinds, db.tables.fixMembers;
    }

    method RepairJoined() returns (panicked: bool)
      modifies this`joined
      ensures Contents() == WriteAll(old(Contents()), JobWrites(old(Contents()), BadDoubleSeparator))
      ensures panicked == JobPanics(old(Contents()), BadDoubleSeparator)
    {
      hide DoubleSeparatorRepair.Apply, DoubleSeparatorRepair.Writes;
      ghost var before := Contents();
      var rows := DoubleSeparatorRepair.RowsOf(joined);
      WriteJoined(before, DoubleSeparatorRepair.Writes(rows));
      DoubleSeparatorRepair.SeparatedRows(rows, joined);
      joined, panicked := DoubleSeparatorRepair.FixDoubleSeparators(joined, rows);
    }

    method CorrectMembers()
      modifies this`joined
      ensures Contents() == WriteAll(old(Contents()), JobWrites(old(Contents()), RoomUserIdJoined))
    {
      WriteJoined(Contents(), fixMembers(joined));
      joined := DoubleSeparatorRepair.Apply(joined, fixMembers(joined));
    }

    method RepairReferenced() returns (panicked: bool)
      modifies this`referenced
      ensures Contents() == WriteAll(old(Contents()), JobWrites(old(Contents()), ReferencedEvents))
      ensures panicked == JobPanics(old(Contents()), ReferencedEvents)
    {
      hide KeyRepairs.Apply, KeyRepairs.Writes, KeyRepairs.Repairable, Bytes.Listing;
      ghost var before := Contents();
      var ks := Bytes.Listing(referenced);
      var ws := KeyRepairs.Writes(ks);
      WriteReferenced(before, ws);
      KeyRepairs.ListingLists(referenced);
      KeyRepairs.RepairableListing(referenced, ks);
      assert ws[..|ws|] == ws;
      var table := new KeyRepairs.KeyTable(referenced);
      var total, fixed, ended := KeyRepairs.FixReferencedEvents(table, ks, |ws|);
      referenced, panicked := table.rows, !ended;
    }

    method RepairReceipts()
      modifies this`receipts
      ensures Contents() == WriteAll(old(Contents()), JobWrites(old(Contents()), ReadReceipts))
    {
      hide ReceiptRepair.DropAll, ReceiptRepair.Dups;
      ghost var before := Contents();
      WriteReceipts(before, ReceiptRepair.Dups(receipts, ReceiptRepair.Nothing));
      receipts := ReceiptRepair.DropDups(receipts);
    }

    method RepairUsers() returns (panicked: bool)
      modifies this`users
      ensures Contents() == WriteAll(old(Contents()), JobWrites(old(Contents()), SplitUserIdPassword))
      ensures panicked == JobPanics(old(Contents()), SplitUserIdPassword)
    {
      hide PasswordSplit.ApplyAll, PasswordSplit.Writes, PasswordSplit.Impossible;
      ghost var before := Contents();
      var rows := PasswordSplit.RowsOf(users);
      WriteUsers(before, PasswordSplit.Writes(kinds, rows));
      PasswordSplit.PossibleRows(kinds, users, rows);
      var tables := new PasswordSplit.UserTables(users);
      var moved;
      moved, panicked := tables.SplitPasswords(kinds, rows);
      users := PasswordSplit.Tables(tables.passwords, tables.remote, tables.deactivated);
    }

    /** The work of one named migration. */
    method RunRepair(m: Marker) returns (panicked: bool)
      modifies this`joined, this`referenced, this`receipts, this`users
      ensures Contents() == WriteAll(old(Contents()), JobWrites(old(Contents()), m))
      ensures panicked == JobPanics(old(Contents()), m)
    {
      panicked := false;
      match m
      case BadDoubleSeparator => panicked := RepairJoined();
      case RoomUserIdJoined => CorrectMembers();
      case ReferencedEvents => panicked := RepairReferenced();
      case ReadReceipts => RepairReceipts();
      case SplitUserIdPassword => panicked := RepairUsers();
      case _ =>
    }

    /** One named migration: its work, then its marker, unless it panics. */
    method Fixup(m: Marker) returns (panicked: bool)
      modifies this
      ensures State() == ApplyAll(old(State()), Effects(old(State()), Marked(m)))
      ensures panicked == Panics(old(State()), Marked(m))
      ensures version == old(version) && markers == if panicked then old(markers) else old(markers) + {m}
      ensures log == old(log) + (if Due(old(State()), Fix(m)) && !panicked then [Fix(m)] else [])
      ensures !Due(old(State()), Fix(m)) ==> State() == old(State())
    {
      hide JobWrites, JobPanics, WriteAll;
      panicked := false;
      ghost var before := State();
      if m !in markers || version < AgainBelow(m) {
        WholeShape(before, Marked(m));
        var ws := Work(before, Marked(m));
        assert ws[..|ws|] == ws;
        panicked := RunRepair(m);
        if !panicked {
          log := log + [Fix(m)];
          markers := markers + {m};
        }
        hide ApplyAll, Effects;
      }
    }

    /** One numbered migration: its work, then the new version. */
    method Numbered(below: nat, job: Job)
      modifies this`version, this`log
      ensures State() == ApplyAll(old(State()), Effects(old(State()), Versioned(below, job)))
      ensures !Panics(old(State()), Versioned(below, job))
    {
      ApplyUpToTwo(State(), Effects(State(), Versioned(below, job)));
      if version < below {
        log := log + [job];
        version := below;
      }
    }

    method RaiseTo(v: nat)
      modifies this`version
      ensures State() == ApplyAll(old(State()), Effects(old(State()), Raise(v)))
      ensures !Panics(old(State()), Raise(v))
    {
      ApplyUpToTwo(State(), Effects(State(), Raise(v)));
      if version < v {
        version := v;
      }
    }

    /** A named migration at its place in the program. */
    method FixupAt(ghost start: Db, ghost k: nat, m: Marker) returns (panicked: bool)
      requires At(start, k, State()) && k < |PROGRAM| && PROGRAM[k] == Marked(m)
      modifies this
      ensures if panicked then Stopped(start, State()) else At(start, k + 1, State())
    {
      hide ApplyAll, Effects, At, Panics, Stopped;
      ghost var before := State();
      panicked := Fixup(m);
      ProgramStep(start, k, before, State());
    }

    method NumberedAt(ghost start: Db, ghost k: nat, below: nat, job: Job)
      requires At(start, k, State()) && k < |PROGRAM| && PROGRAM[k] == Versioned(below, job)
      modifies this`version, this`log
      ensures At(start, k + 1, State())
    {
      hide ApplyAll, Effects, At, Panics, Stopped;
      ghost var before := State();
      Numbered(below, job);
      ProgramStep(start, k, before, State());
    }

    method RaiseToAt(ghost start: Db, ghost k: nat, v: nat)
      requires At(start, k, State()) && k < |PROGRAM| && PROGRAM[k] == Raise(v)
      modifies this`version
      ensures At(start, k + 1, State())
    {
      hide ApplyAll, Effects, At, Panics, Stopped;
      ghost var before := State();
      RaiseTo(v);
      ProgramStep(start, k, before, State());
    }

    /** The migrations up to version 13 and the first named ones. */
    method FirstPart(ghost start: Db) returns (panicked: bool)
      requires At(start, 0, State())
      modifies this
      ensures if panicked then Stopped(start, State()) else At(start, 5, State())
    {
      hide At, Stopped;
      panicked := false;
      NumberedAt(start, 0, 12, PushRules12);
      NumberedAt(start, 1, 13, PushRules13);
      panicked := FixupAt(start, 2, Sha256Media);
      if panicked {
        return;
      }
      panicked := FixupAt(start, 3, BadDoubleSeparator);
      if panicked {
        return;
      }
      panicked := FixupAt(start, 4, RoomUserIdJoined);
    }

    /** The repairs repeated below version 17, up to version 18. */
    method SecondPart(ghost start: Db) returns (panicked: bool)
      requires At(start, 5, State())
      modifies this
      ensures if panicked then Stopped(start, State()) else At(start, 10, State())
    {
      hide At, Stopped;
      panicked := false;
      panicked := FixupAt(start, 5, ReferencedEvents);
      if panicked {
        return;
      }
      panicked := FixupAt(start, 6, ReadReceipts);
      if panicked {
        return;
      }
      RaiseToAt(start, 7, 17);
      panicked := FixupAt(start, 8, CorruptProfileFields);
      if panicked {
        return;
      }
      RaiseToAt(start, 9, 18);
    }

    /** Up to version 19, and the last named ones. */
    method ThirdPart(ghost start: Db) returns (panicked: bool)
      requires At(start, 10, State())
      modifies this
      ensures if panicked then Stopped(start, State()) else At(start, 15, State())
    {
      hide At, Stopped;
      panicked := false;
      panicked := FixupAt(start, 10, LeftState);
      if panicked {
        return;
      }
      panicked := FixupAt(start, 11, LocalInviteState);
      if panicked {
        return;
      }
      RaiseToAt(start, 12, 19);
      panicked := FixupAt(start, 13, SplitUserIdPassword);
      if panicked {
        return;
      }
      panicked := FixupAt(start, 14, DropSyncTokens);
    }

    /** The procedure, not interrupted, is the program above. */
    method MigrateDatabase() returns (outcome: Outcome)
      modifies this
      ensures (State(), outcome) == Migrate(old(State()), Room(old(State()), PROGRAM))
    {
      if version < 11 {
        return TooOld;
      }
      hide WholeProgram;
      ghost var start := State();
      ProgramStart(start);
      WholeIsRun(start, PROGRAM);
      var panicked := FirstPart(start);
      if !panicked {
        panicked := SecondPart(start);
      }
      if !panicked {
        panicked := ThirdPart(start);
      }
      if panicked {
        return Panicked;
      }
      ProgramEnd(start, State());
      outcome := if version == DATABASE_VERSION then Migrated else AssertionFailed;
    }
  }

  /** The program without interruptions. */
  ghost function WholeProgram(db: Db, prog: seq<Instr>): (Db, End)
    decreases |prog|
  {
    if prog == [] then (db, Whole)
    else if Panics(db, prog[0]) then (ApplyAll(db, Effects(db, prog[0])), Panic)
    else WholeProgram(ApplyAll(db, Effects(db, prog[0])), prog[1..])
  }

  /** The procedure stands before instruction k. */
  ghost predicate At(start: Db, k: nat, db: Db) {
    k <= |PROGRAM| && WholeProgram(start, PROGRAM) == WholeProgram(db, PROGRAM[k..])
  }

  /** The procedure panicked. */
  ghost predicate Stopped(start: Db, db: Db) {
    WholeProgram(start, PROGRAM) == (db, Panic)
  }

  lemma ProgramStart(start: Db)
    ensures At(start, 0, start)
  {
    assert PROGRAM[0..] == PROGRAM;
  }

  lemma ProgramStep(start: Db, k: nat, db: Db, db': Db)
    requires k < |PROGRAM| && At(start, k, db) && db' == ApplyAll(db, Effects(db, PROGRAM[k]))
    ensures if Panics(db, PROGRAM[k]) then Stopped(start, db') else At(start, k + 1, db')
  {
    ProgramTail(PROGRAM, k);
    hide Effects, ApplyAll, PROGRAM, Panics;
  }

  lemma ProgramTail(prog: seq<Instr>, k: nat)
    requires k < |prog|
    ensures prog[k..] != [] && prog[k..][0] == prog[k] && prog[k..][1..] == prog[k + 1..]
  {}

  lemma {:induction false} WholeIsRun(db: Db, prog: seq<Instr>)
    ensures Run(db, prog, Room(db, prog)) == WholeProgram(db, prog)
    decreases |prog|
  {
    hide Effects, ApplyAll, Panics;
    if prog != [] {
      WholeIsRun(ApplyAll(db, Effects(db, prog[0])), prog[1..]);
    }
  }

  lemma ProgramEnd(start: Db, db: Db)
    requires At(start, 15, db)
    ensures WholeProgram(start, PROGRAM) == (db, Whole)
  {
    assert PROGRAM[15..] == [];
  }
}
