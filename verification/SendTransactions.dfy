/** Sending a message once: the transaction-id check, the append and the record
    of the reply, under a lock per room, next to to-device calls that use the
    same table without the lock (Matrix Client-Server API, "Transaction
    identifiers"). The machine below is the set of all interleavings. */
module SendTransactions {
  import opened Bytes
  import opened Codec

  type RoomId = string
  type EventId = string
  type TxnKey = seq<byte>

  // ------------------------------------------------------------- the table key

  /** A sender: a user, a device unless an application service sends, and the
      client's transaction id. */
  datatype Sender = Sender(user: Utf8, device: Value, txn: Utf8)

  predicate WellFormed(s: Sender) {
    s.device.None? || (s.device.Some? && s.device.v.VStr?)
  }

  /** The key under which a reply is looked up: a serialized tuple. */
  function LookupKey(s: Sender): TxnKey
    requires WellFormed(s)
  {
    Encode([Just(VStr(s.user)), s.device, Just(VStr(s.txn))])
  }

  /** The key under which a reply is stored: concatenated by hand. */
  function RecordKey(s: Sender): TxnKey
    requires WellFormed(s)
  {
    s.user + [SEP] + (if s.device.None? then [] else s.device.v.s) + [SEP] + s.txn
  }

  /** Lookup and record use the same key. */
  lemma KeysAgree(s: Sender)
    requires WellFormed(s)
    ensures LookupKey(s) == RecordKey(s)
  {
    var xs := [Just(VStr(s.user)), s.device, Just(VStr(s.txn))];
    assert xs[1..] == [s.device, Just(VStr(s.txn))];
    assert xs[1..][1..] == [Just(VStr(s.txn))];
    var d := if s.device.None? then [] else s.device.v.s;
    assert Encode(xs[1..]) == d + [SEP] + s.txn;
  }

  /** What a device contributes to the key: an empty id counts as none. */
  function DeviceText(s: Sender): Utf8
    requires WellFormed(s)
  {
    if s.device.None? then [] else s.device.v.s
  }

  /** The sender with an empty device id left out. */
  function WithoutEmpty(s: Sender): (r: Sender)
    requires WellFormed(s)
    ensures WellFormed(r) && r.device != Some(VStr([])) && LookupKey(r) == LookupKey(s)
    ensures r.user == s.user && r.txn == s.txn && DeviceText(r) == DeviceText(s)
  {
    if s.device != Some(VStr([])) then s
    else
      var r := s.(device := None);
      KeysAgree(s);
      KeysAgree(r);
      r
  }

  /** Two senders share a key exactly if they are the same, except that an empty
      device id is not told from none. */
  lemma KeysDiffer(s: Sender, t: Sender)
    requires WellFormed(s) && WellFormed(t)
    ensures LookupKey(s) == LookupKey(t) <==>
              s.user == t.user && s.txn == t.txn && DeviceText(s) == DeviceText(t)
  {
    KeysAgree(s);
    KeysAgree(t);
    if LookupKey(s) == LookupKey(t) {
      KeysInjective(WithoutEmpty(s), WithoutEmpty(t));
    }
  }

  lemma KeysInjective(s: Sender, t: Sender)
    requires WellFormed(s) && WellFormed(t)
    requires s.device != Some(VStr([])) && t.device != Some(VStr([]))
    requires LookupKey(s) == LookupKey(t)
    ensures s == t
  {
    var ts := [Plain(Str), Opt(Str), Plain(Str)];
    var xs := [Just(VStr(s.user)), s.device, Just(VStr(s.txn))];
    var ys := [Just(VStr(t.user)), t.device, Just(VStr(t.txn))];
    DeviceFaithful(s.device);
    DeviceFaithful(t.device);
    EncodeInjective(ts, xs, ys);
    assert xs[0] == ys[0] && xs[1] == ys[1] && xs[2] == ys[2];
  }

  lemma DeviceFaithful(d: Value)
    requires d.None? || (d.Some? && d.v.VStr?)
    requires d != Some(VStr([]))
    ensures Faithful(d, false)
  {
    if d.Some? {
      Utf8HasNoSep(d.v.s);
    }
  }

  // -------------------------------------------------------------- the machine

  /** A stored reply; to-device calls store an empty one. */
  datatype Stored = Empty | Reply(id: EventId)

  datatype Posted = Posted(id: EventId, room: RoomId, key: TxnKey)

  datatype Reason = Forbidden | Failed | Incompatible

  /** Where a call is. A send holds its room's lock from `Locked` to `Appended`. */
  datatype At =
    | Waiting
    | Locked
    | Unseen                    // the id was not in the table
    | Appended(ev: EventId)     // the event is in the timeline, the reply not yet stored
    | Replied(re: EventId)
    | Refused(reason: Reason)

  datatype Call =
    | Send(key: TxnKey, room: RoomId, at: At)
    | ToDevice(key: TxnKey, checked: bool, ended: bool)

  datatype Server = Server(
    table: map<TxnKey, Stored>,
    timeline: seq<Posted>,
    locks: map<RoomId, nat>,
    calls: seq<Call>)

  datatype Step =
    | NewSend(key: TxnKey, room: RoomId)
    | NewToDevice(key: TxnKey)
    | Acquire(c: nat)
    | Abort(c: nat, why: Reason)   // any error or cancellation before the append
    | Check(c: nat)
    | Append(c: nat, id: EventId)
    | Record(c: nat)
    | CheckToDevice(c: nat)
    | RecordToDevice(c: nat)
    | AbortToDevice(c: nat)        // any error or cancellation before the record

  const START := Server(map[], [], map[], [])

  predicate Holds(call: Call) {
    call.Send? && (call.at.Locked? || call.at.Unseen? || call.at.Appended?)
  }

  predicate Enabled(s: Server, step: Step) {
    match step
    case NewSend(_, _) => true
    case NewToDevice(_) => true
    case Acquire(c) => c < |s.calls| && s.calls[c].Send? && s.calls[c].at.Waiting? && s.calls[c].room !in s.locks
    case Abort(c, why) =>
      && c < |s.calls| && s.calls[c].Send? && why != Incompatible
      && (s.calls[c].at.Waiting? || s.calls[c].at.Locked? || s.calls[c].at.Unseen?)
    case Check(c) => c < |s.calls| && s.calls[c].Send? && s.calls[c].at.Locked?
    case Append(c, id) =>
      && c < |s.calls| && s.calls[c].Send? && s.calls[c].at.Unseen?
      && forall i :: 0 <= i < |s.timeline| ==> s.timeline[i].id != id
    case Record(c) => c < |s.calls| && s.calls[c].Send? && s.calls[c].at.Appended?
    case CheckToDevice(c) => c < |s.calls| && s.calls[c].ToDevice? && !s.calls[c].checked && !s.calls[c].ended
    case RecordToDevice(c) => c < |s.calls| && s.calls[c].ToDevice? && s.calls[c].checked && !s.calls[c].ended
    case AbortToDevice(c) => c < |s.calls| && s.calls[c].ToDevice? && !s.calls[c].ended
  }

  /** A send moves on; a move out of the locked section frees the room. */
  function Move(s: Server, c: nat, at: At): Server
    requires c < |s.calls| && s.calls[c].Send?
  {
    var moved := s.calls[c].(at := at);
    s.(calls := s.calls[c := moved],
       locks := if Holds(s.calls[c]) && !Holds(moved) then s.locks - {moved.room} else s.locks)
  }

  function Next(s: Server, step: Step): Server
    requires Enabled(s, step)
  {
    match step
    case NewSend(key, room) => s.(calls := s.calls + [Send(key, room, Waiting)])
    case NewToDevice(key) => s.(calls := s.calls + [ToDevice(key, false, false)])
    case Acquire(c) => Move(s, c, Locked).(locks := s.locks[s.calls[c].room := c])
    case Abort(c, why) => Move(s, c, Refused(why))
    case Check(c) =>
      var key := s.calls[c].key;
      if key !in s.table then Move(s, c, Unseen)
      else if s.table[key].Empty? then Move(s, c, Refused(Incompatible))
      else Move(s, c, Replied(s.table[key].id))
    case Append(c, id) =>
      Move(s, c, Appended(id)).(timeline := s.timeline + [Posted(id, s.calls[c].room, s.calls[c].key)])
    case Record(c) =>
      Move(s, c, Replied(s.calls[c].at.ev)).(table := s.table[s.calls[c].key := Reply(s.calls[c].at.ev)])
    case CheckToDevice(c) =>
      s.(calls := s.calls[c := ToDevice(s.calls[c].key, s.calls[c].key !in s.table, s.calls[c].key in s.table)])
    case RecordToDevice(c) =>
      s.(calls := s.calls[c := ToDevice(s.calls[c].key, true, true)],
         table := s.table[s.calls[c].key := Empty])
    case AbortToDevice(c) =>
      s.(calls := s.calls[c := s.calls[c].(ended := true)])
  }

  /** States some interleaving leads to. */
  ghost predicate Run(steps: seq<Step>, s: Server)
    decreases |steps|
  {
    if steps == [] then s == START
    else
      var n := |steps| - 1;
      exists t :: Run(steps[..n], t) && Enabled(t, steps[n]) && s == Next(t, steps[n])
  }

  // ------------------------------------------------------------ the invariant

  ghost predicate LocksOk(s: Server) {
    && (forall c :: 0 <= c < |s.calls| && Holds(s.calls[c]) ==>
          s.calls[c].room in s.locks && s.locks[s.calls[c].room] == c)
    && (forall r :: r in s.locks ==>
          s.locks[r] < |s.calls| && Holds(s.calls[s.locks[r]]) && s.calls[s.locks[r]].room == r)
  }

  /** An event was posted for this id in this room. */
  ghost predicate Used(s: Server, key: TxnKey, room: RoomId) {
    exists i :: 0 <= i < |s.timeline| && s.timeline[i].key == key && s.timeline[i].room == room
  }

  ghost predicate PostedOk(s: Server) {
    && (forall i, j :: 0 <= i < j < |s.timeline| ==> s.timeline[i].id != s.timeline[j].id)
    // one event per id and room
    && (forall i, j :: 0 <= i < j < |s.timeline| ==>
          s.timeline[i].key != s.timeline[j].key || s.timeline[i].room != s.timeline[j].room)
    // an event's reply is stored, or its call still holds the room
    && (forall i :: 0 <= i < |s.timeline| ==>
          s.timeline[i].key in s.table
          || (s.timeline[i].room in s.locks
              && s.locks[s.timeline[i].room] < |s.calls|
              && s.calls[s.locks[s.timeline[i].room]].Send?
              && s.calls[s.locks[s.timeline[i].room]].at.Appended?
              && s.calls[s.locks[s.timeline[i].room]].key == s.timeline[i].key))
  }

  ghost predicate Known(s: Server, id: EventId, key: TxnKey) {
    exists i :: 0 <= i < |s.timeline| && s.timeline[i].id == id && s.timeline[i].key == key
  }

  ghost predicate SentIn(s: Server, key: TxnKey, room: RoomId) {
    exists c :: 0 <= c < |s.calls| && s.calls[c].Send? && s.calls[c].key == key && s.calls[c].room == room
  }

  ghost predicate RepliesOk(s: Server) {
    && (forall c :: 0 <= c < |s.calls| && s.calls[c].Send? ==>
          && (s.calls[c].at.Replied? ==> Known(s, s.calls[c].at.re, s.calls[c].key) && s.calls[c].key in s.table)
          && (s.calls[c].at.Appended? ==> Known(s, s.calls[c].at.ev, s.calls[c].key))
          && (s.calls[c].at.Unseen? ==> !Used(s, s.calls[c].key, s.calls[c].room)))
    && (forall k :: k in s.table && s.table[k].Reply? ==> Known(s, s.table[k].id, k))
    && (forall i :: 0 <= i < |s.timeline| ==> SentIn(s, s.timeline[i].key, s.timeline[i].room))
  }

  /** Someone made a to-device call with this id. */
  ghost predicate OnDevice(s: Server, key: TxnKey) {
    exists c :: 0 <= c < |s.calls| && s.calls[c].ToDevice? && s.calls[c].key == key
  }

  ghost predicate EmptyOk(s: Server) {
    && (forall k :: k in s.table && s.table[k].Empty? ==> OnDevice(s, k))
    && (forall c :: 0 <= c < |s.calls| && s.calls[c].Send? && s.calls[c].at == Refused(Incompatible) ==>
          OnDevice(s, s.calls[c].key))
  }

  ghost predicate Inv(s: Server) {
    LocksOk(s) && PostedOk(s) && RepliesOk(s) && EmptyOk(s)
  }

  /** Moving on keeps the locks right, as long as no lock is taken. */
  lemma MoveLocks(s: Server, c: nat, at: At)
    requires LocksOk(s) && c < |s.calls| && s.calls[c].Send?
    requires Holds(s.calls[c].(at := at)) ==> Holds(s.calls[c])
    ensures LocksOk(Move(s, c, at))
  {
    var t := Move(s, c, at);
    forall d | 0 <= d < |t.calls| && Holds(t.calls[d])
      ensures t.calls[d].room in t.locks && t.locks[t.calls[d].room] == d
    {
      assert Holds(s.calls[d]);
    }
  }

  lemma LocksKept(s: Server, step: Step)
    requires LocksOk(s) && Enabled(s, step)
    ensures LocksOk(Next(s, step))
  {
    var t := Next(s, step);
    match step {
      case Acquire(c) =>
      case Abort(c, why) => MoveLocks(s, c, Refused(why));
      case Check(c) =>
        if s.calls[c].key !in s.table {
          MoveLocks(s, c, Unseen);
        } else if s.table[s.calls[c].key].Empty? {
          MoveLocks(s, c, Refused(Incompatible));
        } else {
          MoveLocks(s, c, Replied(s.table[s.calls[c].key].id));
        }
      case Append(c, id) => MoveLocks(s, c, Appended(id));
      case Record(c) => MoveLocks(s, c, Replied(s.calls[c].at.ev));
      case NewSend(_, _) =>
      case NewToDevice(_) =>
      case CheckToDevice(_) =>
      case RecordToDevice(_) =>
      case AbortToDevice(_) =>
    }
  }

  /** Calls keep their kind, key and room; later steps only add. */
  ghost predicate Grows(s: Server, t: Server) {
    && |s.calls| <= |t.calls| && s.timeline <= t.timeline && s.table.Keys <= t.table.Keys
    && (forall c :: 0 <= c < |s.calls| ==>
          && s.calls[c].Send? == t.calls[c].Send? && s.calls[c].key == t.calls[c].key
          && (s.calls[c].Send? ==> s.calls[c].room == t.calls[c].room))
  }

  lemma StepGrows(s: Server, step: Step)
    requires Enabled(s, step)
    ensures Grows(s, Next(s, step))
  {}

  lemma GrowsKeeps(s: Server, t: Server)
    requires Grows(s, t)
    ensures forall id, k :: Known(s, id, k) ==> Known(t, id, k)
    ensures forall k, r :: SentIn(s, k, r) ==> SentIn(t, k, r)
    ensures forall k :: OnDevice(s, k) ==> OnDevice(t, k)
  {
    forall id, k | Known(s, id, k) ensures Known(t, id, k) {
      var i :| 0 <= i < |s.timeline| && s.timeline[i].id == id && s.timeline[i].key == k;
      assert t.timeline[i] == s.timeline[i];
    }
    forall k, r | SentIn(s, k, r) ensures SentIn(t, k, r) {
      var c :| 0 <= c < |s.calls| && s.calls[c].Send? && s.calls[c].key == k && s.calls[c].room == r;
      assert t.calls[c].Send?;
    }
    forall k | OnDevice(s, k) ensures OnDevice(t, k) {
      var c :| 0 <= c < |s.calls| && s.calls[c].ToDevice? && s.calls[c].key == k;
      assert !t.calls[c].Send?;
    }
  }

  /** The heart: under the room's lock, an id that is not in the table has no
      event in the room. */
  lemma UnseenIsUnused(s: Server, c: nat)
    requires LocksOk(s) && PostedOk(s)
    requires c < |s.calls| && s.calls[c].Send? && s.calls[c].at.Locked? && s.calls[c].key !in s.table
    ensures !Used(s, s.calls[c].key, s.calls[c].room)
  {
    assert s.locks[s.calls[c].room] == c;
    forall i | 0 <= i < |s.timeline|
      ensures s.timeline[i].key != s.calls[c].key || s.timeline[i].room != s.calls[c].room
    {
    }
  }

  /** An append in a room where the id has no event keeps events unique. */
  lemma AppendPosted(s: Server, c: nat, id: EventId)
    requires Inv(s) && Enabled(s, Append(c, id))
    ensures PostedOk(Next(s, Append(c, id)))
  {
    hide EmptyOk, Known, SentIn;
    var t := Next(s, Append(c, id));
    var key, room := s.calls[c].key, s.calls[c].room;
    assert !Used(s, key, room);
    forall i | 0 <= i < |s.timeline| ensures s.timeline[i].key != key || s.timeline[i].room != room {
    }
    assert t.locks[room] == c;
  }

  lemma MovePosted(s: Server, c: nat, at: At)
    requires LocksOk(s) && PostedOk(s) && c < |s.calls| && s.calls[c].Send? && !s.calls[c].at.Appended?
    ensures PostedOk(Move(s, c, at))
  {}

  lemma PostedKept(s: Server, step: Step)
    requires Inv(s) && Enabled(s, step)
    ensures PostedOk(Next(s, step))
  {
    hide EmptyOk, RepliesOk;
    match step {
      case Append(c, id) => AppendPosted(s, c, id);
      case Acquire(c) => MovePosted(s, c, Locked);
      case Abort(c, why) => MovePosted(s, c, Refused(why));
      case Check(c) =>
        if s.calls[c].key !in s.table {
          MovePosted(s, c, Unseen);
        } else if s.table[s.calls[c].key].Empty? {
          MovePosted(s, c, Refused(Incompatible));
        } else {
          MovePosted(s, c, Replied(s.table[s.calls[c].key].id));
        }
      case Record(_) =>
      case NewSend(_, _) =>
      case NewToDevice(_) =>
      case CheckToDevice(_) =>
      case RecordToDevice(_) =>
      case AbortToDevice(_) =>
    }
  }

  /** Only an append changes which ids have events. */
  lemma UsedKept(s: Server, step: Step, key: TxnKey, room: RoomId)
    requires Enabled(s, step) && !Used(s, key, room)
    requires step.Append? ==> s.calls[step.c].key != key || s.calls[step.c].room != room
    ensures !Used(Next(s, step), key, room)
  {}

  /** No other call appends in a room whose lock is held. */
  lemma AppendElsewhere(s: Server, c: nat, d: nat)
    requires LocksOk(s) && c < |s.calls| && d < |s.calls| && c != d
    requires Holds(s.calls[c]) && Holds(s.calls[d])
    ensures s.calls[c].room != s.calls[d].room
  {}

  /** What a call may claim in its new place. */
  ghost predicate ClaimOk(s: Server, call: Call) {
    call.Send? ==>
      && (call.at.Replied? ==> Known(s, call.at.re, call.key) && call.key in s.table)
      && (call.at.Appended? ==> Known(s, call.at.ev, call.key))
      && (call.at.Unseen? ==> !Used(s, call.key, call.room))
  }

  lemma ClaimKept(s: Server, step: Step, d: nat)
    requires Inv(s) && Enabled(s, step) && d < |s.calls|
    requires Next(s, step).calls[d] == s.calls[d]
    ensures ClaimOk(Next(s, step), s.calls[d])
  {
    var t := Next(s, step);
    StepGrows(s, step);
    GrowsKeeps(s, t);
    hide Known, EmptyOk, PostedOk;
    if s.calls[d].Send? && s.calls[d].at.Unseen? {
      if step.Append? {
        assert step.c != d;
        AppendElsewhere(s, step.c, d);
      }
      UsedKept(s, step, s.calls[d].key, s.calls[d].room);
    }
  }

  lemma CheckClaim(s: Server, c: nat)
    requires Inv(s) && Enabled(s, Check(c))
    ensures ClaimOk(Next(s, Check(c)), Next(s, Check(c)).calls[c])
  {
    var t, key := Next(s, Check(c)), s.calls[c].key;
    hide EmptyOk;
    if key !in s.table {
      UnseenIsUnused(s, c);
      hide PostedOk, LocksOk;
      UsedKept(s, Check(c), key, s.calls[c].room);
    } else if s.table[key].Reply? {
      assert Known(s, s.table[key].id, key);
      StepGrows(s, Check(c));
      GrowsKeeps(s, t);
      hide PostedOk, LocksOk, Known;
    }
  }

  lemma AppendClaim(s: Server, c: nat, id: EventId)
    requires Enabled(s, Append(c, id))
    ensures ClaimOk(Next(s, Append(c, id)), Next(s, Append(c, id)).calls[c])
  {
    var t := Next(s, Append(c, id));
    assert t.timeline[|s.timeline|] == Posted(id, s.calls[c].room, s.calls[c].key);
  }

  lemma RecordClaim(s: Server, c: nat)
    requires Inv(s) && Enabled(s, Record(c))
    ensures ClaimOk(Next(s, Record(c)), Next(s, Record(c)).calls[c])
  {
    StepGrows(s, Record(c));
    GrowsKeeps(s, Next(s, Record(c)));
    hide Known, PostedOk, LocksOk, EmptyOk;
  }

  /** The call that moved. */
  lemma ClaimMade(s: Server, step: Step, d: nat)
    requires Inv(s) && Enabled(s, step) && d < |Next(s, step).calls|
    requires d < |s.calls| ==> Next(s, step).calls[d] != s.calls[d]
    ensures ClaimOk(Next(s, step), Next(s, step).calls[d])
  {
    hide Known, Used, Inv;
    match step {
      case Check(c) => CheckClaim(s, c);
      case Append(c, id) => AppendClaim(s, c, id);
      case Record(c) => RecordClaim(s, c);
      case Acquire(_) =>
      case Abort(_, _) =>
      case NewSend(_, _) =>
      case NewToDevice(_) =>
      case CheckToDevice(_) =>
      case RecordToDevice(_) =>
      case AbortToDevice(_) =>
    }
  }

  /** Every event comes from a send. */
  lemma SentKept(s: Server, step: Step, i: nat)
    requires RepliesOk(s) && Enabled(s, step) && i < |Next(s, step).timeline|
    ensures var t := Next(s, step); SentIn(t, t.timeline[i].key, t.timeline[i].room)
  {
    hide Known, Used;
    var t := Next(s, step);
    StepGrows(s, step);
    GrowsKeeps(s, t);
    if i < |s.timeline| {
      assert SentIn(s, s.timeline[i].key, s.timeline[i].room);
    } else {
      assert t.calls[step.c].Send?;
    }
  }

  /** Every stored reply names an event. */
  lemma StoredKept(s: Server, step: Step, k: TxnKey)
    requires RepliesOk(s) && Enabled(s, step) && k in Next(s, step).table && Next(s, step).table[k].Reply?
    ensures Known(Next(s, step), Next(s, step).table[k].id, k)
  {
    hide Known, Used, SentIn;
    StepGrows(s, step);
    GrowsKeeps(s, Next(s, step));
  }

  lemma RepliesKept(s: Server, step: Step)
    requires Inv(s) && Enabled(s, step)
    ensures RepliesOk(Next(s, step))
  {
    hide Known, EmptyOk, PostedOk, LocksOk, Used, SentIn, Next, Enabled;
    var t := Next(s, step);
    forall d | 0 <= d < |t.calls| ensures ClaimOk(t, t.calls[d]) {
      if d < |s.calls| && t.calls[d] == s.calls[d] {
        ClaimKept(s, step, d);
      } else {
        ClaimMade(s, step, d);
      }
    }
    forall i | 0 <= i < |t.timeline| ensures SentIn(t, t.timeline[i].key, t.timeline[i].room) {
      SentKept(s, step, i);
    }
    forall k | k in t.table && t.table[k].Reply? ensures Known(t, t.table[k].id, k) {
      StoredKept(s, step, k);
    }
  }

  lemma EmptyTableKept(s: Server, step: Step, k: TxnKey)
    requires EmptyOk(s) && Enabled(s, step)
    requires k in Next(s, step).table && Next(s, step).table[k].Empty?
    ensures OnDevice(Next(s, step), k)
  {
    var t := Next(s, step);
    if k in s.table && s.table[k].Empty? {
      StepGrows(s, step);
      GrowsKeeps(s, t);
    } else {
      assert step.RecordToDevice?;
      assert t.calls[step.c].ToDevice? && t.calls[step.c].key == k;
    }
  }

  lemma RefusalKept(s: Server, step: Step, d: nat)
    requires EmptyOk(s) && Enabled(s, step) && d < |Next(s, step).calls|
    requires var call := Next(s, step).calls[d]; call.Send? && call.at == Refused(Incompatible)
    ensures OnDevice(Next(s, step), Next(s, step).calls[d].key)
  {
    var t := Next(s, step);
    StepGrows(s, step);
    GrowsKeeps(s, t);
    hide OnDevice;
    if !(d < |s.calls| && t.calls[d] == s.calls[d]) {
      assert step.Check? && s.table[t.calls[d].key].Empty?;
    }
  }

  lemma EmptyKept(s: Server, step: Step)
    requires EmptyOk(s) && Enabled(s, step)
    ensures EmptyOk(Next(s, step))
  {
    hide OnDevice, Next;
    var t := Next(s, step);
    forall k | k in t.table && t.table[k].Empty? ensures OnDevice(t, k) {
      EmptyTableKept(s, step, k);
    }
    forall d | 0 <= d < |t.calls| && t.calls[d].Send? && t.calls[d].at == Refused(Incompatible)
      ensures OnDevice(t, t.calls[d].key)
    {
      RefusalKept(s, step, d);
    }
  }

  lemma {:induction false} RunInv(steps: seq<Step>, s: Server)
    requires Run(steps, s)
    ensures Inv(s)
    decreases |steps|
  {
    if steps != [] {
      var n := |steps| - 1;
      var t :| Run(steps[..n], t) && Enabled(t, steps[n]) && s == Next(t, steps[n]);
      RunInv(steps[..n], t);
      LocksKept(t, steps[n]);
      PostedKept(t, steps[n]);
      RepliesKept(t, steps[n]);
      EmptyKept(t, steps[n]);
    }
  }

  // ----------------------------------------------------------------- results

  /** At most one event per transaction id and room, in every interleaving. */
  lemma AtMostOnce(steps: seq<Step>, s: Server, i: nat, j: nat)
    requires Run(steps, s) && i < |s.timeline| && j < |s.timeline|
    requires s.timeline[i].key == s.timeline[j].key && s.timeline[i].room == s.timeline[j].room
    ensures i == j
  {
    RunInv(steps, s);
  }

  /** All successful replies to an id that is used in one room name one event,
      which is in that room; to-device calls cannot change that. */
  lemma SameReply(steps: seq<Step>, s: Server, room: RoomId, c: nat, d: nat)
    requires Run(steps, s) && c < |s.calls| && d < |s.calls|
    requires s.calls[c].Send? && s.calls[d].Send? && s.calls[c].key == s.calls[d].key
    requires s.calls[c].at.Replied? && s.calls[d].at.Replied?
    requires forall e :: 0 <= e < |s.calls| && s.calls[e].Send? && s.calls[e].key == s.calls[c].key ==>
      s.calls[e].room == room
    ensures s.calls[c].at.re == s.calls[d].at.re
    ensures exists i :: 0 <= i < |s.timeline| && s.timeline[i] == Posted(s.calls[c].at.re, room, s.calls[c].key)
  {
    RunInv(steps, s);
    var key := s.calls[c].key;
    assert Known(s, s.calls[c].at.re, key) && Known(s, s.calls[d].at.re, key);
    var i :| 0 <= i < |s.timeline| && s.timeline[i].id == s.calls[c].at.re && s.timeline[i].key == key;
    var j :| 0 <= j < |s.timeline| && s.timeline[j].id == s.calls[d].at.re && s.timeline[j].key == key;
    RoomOf(s, i, room);
    RoomOf(s, j, room);
    assert i == j;
  }

  lemma RoomOf(s: Server, i: nat, room: RoomId)
    requires RepliesOk(s) && i < |s.timeline|
    requires forall e :: 0 <= e < |s.calls| && s.calls[e].Send? && s.calls[e].key == s.timeline[i].key ==>
      s.calls[e].room == room
    ensures s.timeline[i].room == room
  {
    assert SentIn(s, s.timeline[i].key, s.timeline[i].room);
  }

  /** A send is told that its id belongs to another endpoint only if a to-device
      call used that id. */
  lemma IncompatibleIsJustified(steps: seq<Step>, s: Server, c: nat)
    requires Run(steps, s) && c < |s.calls| && s.calls[c].Send? && s.calls[c].at == Refused(Incompatible)
    ensures OnDevice(s, s.calls[c].key)
  {
    RunInv(steps, s);
  }

  // -------------------------------------------------------------- retries

  /** A to-device call is between its look at the table and its record. */
  ghost predicate Pending(s: Server, key: TxnKey) {
    exists c :: 0 <= c < |s.calls| && s.calls[c] == ToDevice(key, true, false)
  }

  /** A reply to the id is in the table. */
  predicate ReplyStored(s: Server, key: TxnKey) {
    key in s.table && s.table[key].Reply?
  }

  /** The states that further steps lead to. */
  ghost predicate Leads(s: Server, steps: seq<Step>, t: Server)
    decreases |steps|
  {
    if steps == [] then t == s
    else
      var n := |steps| - 1;
      exists u :: Leads(s, steps[..n], u) && Enabled(u, steps[n]) && t == Next(u, steps[n])
  }

  /** Whatever happens from here, every send of the id that looks is answered. */
  ghost predicate AlwaysAnswered(s: Server, key: TxnKey) {
    forall steps, t, d: nat :: Leads(s, steps, t) && Enabled(t, Check(d)) && t.calls[d].key == key ==>
      Next(t, Check(d)).calls[d].at.Replied?
  }

  /** Without a pending to-device call a stored reply stays, and none becomes pending. */
  lemma StaysStored(s: Server, step: Step, key: TxnKey)
    requires ReplyStored(s, key) && !Pending(s, key) && Enabled(s, step)
    ensures ReplyStored(Next(s, step), key) && !Pending(Next(s, step), key)
  {
    var t := Next(s, step);
    if step.RecordToDevice? {
      assert s.calls[step.c] == ToDevice(s.calls[step.c].key, true, false);
    }
    forall c | 0 <= c < |t.calls|
      ensures t.calls[c] != ToDevice(key, true, false)
    {
    }
  }

  lemma {:induction false} StoredForever(s: Server, steps: seq<Step>, t: Server, key: TxnKey)
    requires ReplyStored(s, key) && !Pending(s, key) && Leads(s, steps, t)
    ensures ReplyStored(t, key) && !Pending(t, key)
    decreases |steps|
  {
    if steps != [] {
      var n := |steps| - 1;
      var u :| Leads(s, steps[..n], u) && Enabled(u, steps[n]) && t == Next(u, steps[n]);
      StoredForever(s, steps[..n], u, key);
      StaysStored(u, steps[n], key);
    }
  }

  /** A call that is over: answered, refused, or a to-device call that ended. */
  predicate Over(call: Call) {
    if call.Send? then call.at.Replied? || call.at.Refused? else call.ended
  }

  /** What happens to a call: it stays the same call, and if it is over it stays
      as it is. Errors, records and answers end it. */
  lemma CallsEnd(s: Server, step: Step, c: nat)
    requires Enabled(s, step) && c < |s.calls|
    ensures
      var t := Next(s, step);
      && c < |t.calls| && t.calls[c].key == s.calls[c].key
      && (t.calls[c].Send? <==> s.calls[c].Send?)
      && (Over(s.calls[c]) ==> t.calls[c] == s.calls[c])
      && (s.calls[c].ToDevice? && s.calls[c].checked && t.calls[c] != s.calls[c] ==>
            step == RecordToDevice(c) || step == AbortToDevice(c))
      && (step in {Abort(c, Forbidden), Abort(c, Failed), Record(c), RecordToDevice(c), AbortToDevice(c)} ==>
            Over(t.calls[c]))
  {
  }

  /** A call that is over has its answer for good. */
  lemma {:induction false} OverForever(s: Server, steps: seq<Step>, t: Server, c: nat)
    requires Leads(s, steps, t) && c < |s.calls| && Over(s.calls[c])
    ensures c < |t.calls| && t.calls[c] == s.calls[c]
    ensures !Enabled(t, RecordToDevice(c)) && !Enabled(t, Record(c))
    decreases |steps|
  {
    if steps != [] {
      var n := |steps| - 1;
      var u :| Leads(s, steps[..n], u) && Enabled(u, steps[n]) && t == Next(u, steps[n]);
      OverForever(s, steps[..n], u, c);
      hide Enabled, Next;
      CallsEnd(u, steps[n], c);
    }
  }

  /** Some room is not locked. */
  lemma FreeRoom(rooms: set<RoomId>) returns (room: RoomId)
    ensures room !in rooms
  {
    var n := LongerThanAll(rooms);
    room := seq(n, _ => 'x');
  }

  lemma LongerThanAll(rooms: set<RoomId>) returns (n: nat)
    ensures forall r :: r in rooms ==> |r| < n
  {
    if rooms == {} {
      n := 0;
    } else {
      var r :| r in rooms;
      n := LongerThanAll(rooms - {r});
      n := if n > |r| then n else |r| + 1;
    }
  }

  /** A pending to-device call can record, and a retry is refused then. */
  lemma PendingLosesReply(s: Server, key: TxnKey)
    requires Pending(s, key)
    ensures !AlwaysAnswered(s, key)
  {
    var c :| 0 <= c < |s.calls| && s.calls[c] == ToDevice(key, true, false);
    var room := FreeRoom(s.locks.Keys);
    var d := |s.calls|;
    var t1 := Next(s, RecordToDevice(c));
    var t2 := Next(t1, NewSend(key, room));
    assert t2.calls[d] == Send(key, room, Waiting);
    var t3 := Next(t2, Acquire(d));
    assert t3.calls[d] == Send(key, room, Locked) && t3.table[key] == Empty;
    var three := ThreeSteps(s, RecordToDevice(c), t1, NewSend(key, room), t2, Acquire(d), t3);
    hide Next, Leads;
    RefusedAfter(t3, d);
  }

  lemma ThreeSteps(s: Server, a: Step, t: Server, b: Step, u: Server, c: Step, v: Server) returns (steps: seq<Step>)
    requires Enabled(s, a) && t == Next(s, a) && Enabled(t, b) && u == Next(t, b) && Enabled(u, c) && v == Next(u, c)
    ensures Leads(s, steps, v)
  {
    assert Leads(s, [], s);
    hide Next, Leads, Enabled;
    LeadsOn(s, [], s, a, t);
    LeadsOn(s, [] + [a], t, b, u);
    LeadsOn(s, [] + [a] + [b], u, c, v);
    steps := [] + [a] + [b] + [c];
  }

  lemma RefusedAfter(t: Server, d: nat)
    requires Enabled(t, Check(d)) && t.calls[d].key in t.table && t.table[t.calls[d].key].Empty?
    ensures !Next(t, Check(d)).calls[d].at.Replied?
  {
  }

  lemma LeadsOn(s: Server, steps: seq<Step>, t: Server, step: Step, u: Server)
    requires Leads(s, steps, t) && Enabled(t, step) && u == Next(t, step)
    ensures Leads(s, steps + [step], u)
  {
    assert (steps + [step])[..|steps|] == steps;
  }

  /** With a reply in the table, every later send of the id is answered, in every
      continuation, exactly if no to-device call with the id is pending. */
  lemma RetryAnsweredIff(s: Server, key: TxnKey)
    requires ReplyStored(s, key)
    ensures AlwaysAnswered(s, key) <==> !Pending(s, key)
  {
    if Pending(s, key) {
      PendingLosesReply(s, key);
    } else {
      forall steps, t, d: nat | Leads(s, steps, t) && Enabled(t, Check(d)) && t.calls[d].key == key
        ensures Next(t, Check(d)).calls[d].at.Replied?
      {
        StoredForever(s, steps, t, key);
      }
    }
  }

  /** The call can still change a stored reply with this event: a pending
      to-device call, a send that has not found the reply, or one that is about to
      record another event. */
  predicate Overwrites(call: Call, key: TxnKey, id: EventId) {
    || call == ToDevice(key, true, false)
    || (call.Send? && call.key == key && (call.at.Unseen? || (call.at.Appended? && call.at.ev != id)))
  }

  ghost predicate Threatened(s: Server, key: TxnKey, id: EventId) {
    exists c :: 0 <= c < |s.calls| && Overwrites(s.calls[c], key, id)
  }

  predicate ReplyIs(s: Server, key: TxnKey, id: EventId) {
    key in s.table && s.table[key] == Reply(id)
  }

  /** Whatever happens from here, every send of the id that looks is answered
      with this event. */
  ghost predicate AlwaysReplies(s: Server, key: TxnKey, id: EventId) {
    forall steps, t, d: nat :: Leads(s, steps, t) && Enabled(t, Check(d)) && t.calls[d].key == key ==>
      Next(t, Check(d)).calls[d].at == Replied(id)
  }

  /** Without a call that can change it a stored reply stays, and no call comes
      to be able to. */
  lemma StaysTheSame(s: Server, step: Step, key: TxnKey, id: EventId)
    requires ReplyIs(s, key, id) && !Threatened(s, key, id) && Enabled(s, step)
    ensures ReplyIs(Next(s, step), key, id) && !Threatened(Next(s, step), key, id)
  {
    var t := Next(s, step);
    if step.RecordToDevice? || step.Record? || step.Append? {
      assert !Overwrites(s.calls[step.c], key, id);
    }
    forall c | 0 <= c < |t.calls|
      ensures !Overwrites(t.calls[c], key, id)
    {
      if c < |s.calls| {
        assert !Overwrites(s.calls[c], key, id);
      }
    }
  }

  lemma {:induction false} SameForever(s: Server, steps: seq<Step>, t: Server, key: TxnKey, id: EventId)
    requires ReplyIs(s, key, id) && !Threatened(s, key, id) && Leads(s, steps, t)
    ensures ReplyIs(t, key, id) && !Threatened(t, key, id)
    decreases |steps|
  {
    hide Threatened, ReplyIs, Next, Enabled;
    if steps != [] {
      var n := |steps| - 1;
      var u :| Leads(s, steps[..n], u) && Enabled(u, steps[n]) && t == Next(u, steps[n]);
      SameForever(s, steps[..n], u, key, id);
      StaysTheSame(u, steps[n], key, id);
    }
  }

  /** A send that is made now, in a room that is free, shows what is stored. */
  lemma OtherEntryShows(s: Server, steps: seq<Step>, u: Server, key: TxnKey, id: EventId)
    requires Leads(s, steps, u) && !ReplyIs(u, key, id)
    ensures !AlwaysReplies(s, key, id)
  {
    var room := FreeRoom(u.locks.Keys);
    var d := |u.calls|;
    var v := Next(u, NewSend(key, room));
    assert v.calls[d] == Send(key, room, Waiting);
    var w := Next(v, Acquire(d));
    assert w.calls[d] == Send(key, room, Locked) && w.table == u.table;
    LeadsOn(s, steps, u, NewSend(key, room), v);
    LeadsOn(s, steps + [NewSend(key, room)], v, Acquire(d), w);
    hide Leads;
    LookShows(w, d, id);
    assert Enabled(w, Check(d)) && w.calls[d].key == key;
    hide Next, Enabled;
  }

  lemma LookShows(t: Server, d: nat, id: EventId)
    requires Enabled(t, Check(d)) && !ReplyIs(t, t.calls[d].key, id)
    ensures Next(t, Check(d)).calls[d].at != Replied(id)
  {
  }

  lemma FreshEvent(s: Server, id: EventId) returns (ev: EventId)
    ensures ev != id && forall i :: 0 <= i < |s.timeline| ==> s.timeline[i].id != ev
  {
    var used := {id} + set i | 0 <= i < |s.timeline| :: s.timeline[i].id;
    ev := FreeRoom(used);
  }

  /** A call that can change the reply may do so. */
  lemma ThreatCarriedOut(s: Server, key: TxnKey, id: EventId)
    requires Threatened(s, key, id)
    ensures !AlwaysReplies(s, key, id)
  {
    var c :| 0 <= c < |s.calls| && Overwrites(s.calls[c], key, id);
    assert Leads(s, [], s);
    if s.calls[c].ToDevice? {
      var t := Next(s, RecordToDevice(c));
      LeadsOn(s, [], s, RecordToDevice(c), t);
      hide Leads;
      OtherEntryShows(s, [] + [RecordToDevice(c)], t, key, id);
    } else if s.calls[c].at.Appended? {
      var t := Next(s, Record(c));
      LeadsOn(s, [], s, Record(c), t);
      hide Leads;
      OtherEntryShows(s, [] + [Record(c)], t, key, id);
    } else {
      var ev := FreshEvent(s, id);
      var t := Next(s, Append(c, ev));
      var u := Next(t, Record(c));
      LeadsOn(s, [], s, Append(c, ev), t);
      LeadsOn(s, [] + [Append(c, ev)], t, Record(c), u);
      hide Leads;
      OtherEntryShows(s, [] + [Append(c, ev)] + [Record(c)], u, key, id);
    }
  }

  /** From any state: every later send of the id is answered with this event, in
      every continuation, exactly if that is the stored reply and no call can
      still change it. */
  lemma RetryGetsEventIff(s: Server, key: TxnKey, id: EventId)
    ensures AlwaysReplies(s, key, id) <==> ReplyIs(s, key, id) && !Threatened(s, key, id)
  {
    assert Leads(s, [], s);
    if !ReplyIs(s, key, id) {
      hide Leads;
      OtherEntryShows(s, [], s, key, id);
    } else if Threatened(s, key, id) {
      ThreatCarriedOut(s, key, id);
    } else {
      forall steps, t, d: nat | Leads(s, steps, t) && Enabled(t, Check(d)) && t.calls[d].key == key
        ensures Next(t, Check(d)).calls[d].at == Replied(id)
      {
        SameForever(s, steps, t, key, id);
      }
    }
  }

  /** Once a send was answered and as long as no to-device call used the id, every
      retry is answered, come what may; with the same event exactly if that is
      still stored and no other send is about to replace it. */
  lemma RetryAnswered(steps: seq<Step>, s: Server, c: nat)
    requires Run(steps, s) && c < |s.calls| && s.calls[c].Send? && s.calls[c].at.Replied?
    requires !OnDevice(s, s.calls[c].key)
    ensures AlwaysAnswered(s, s.calls[c].key)
    ensures AlwaysReplies(s, s.calls[c].key, s.calls[c].at.re) <==>
              ReplyIs(s, s.calls[c].key, s.calls[c].at.re) && !Threatened(s, s.calls[c].key, s.calls[c].at.re)
  {
    RunInv(steps, s);
    assert s.calls[c].key in s.table;
    assert s.table[s.calls[c].key].Reply?;
    hide Run, Inv, LocksOk, PostedOk, RepliesOk, EmptyOk;
    RetryAnsweredIff(s, s.calls[c].key);
    RetryGetsEventIff(s, s.calls[c].key, s.calls[c].at.re);
  }

  /** Where the id is used with one room and no to-device call so far, every retry
      gets the event of the first answer, come what may. */
  lemma RetryGetsItsEvent(steps: seq<Step>, s: Server, c: nat, rooms: set<RoomId>)
    requires Run(steps, s) && c < |s.calls| && s.calls[c].Send? && s.calls[c].at.Replied?
    requires !OnDevice(s, s.calls[c].key) && SentOnlyTo(s, s.calls[c].key, rooms) && AtMostOne(rooms)
    ensures AlwaysReplies(s, s.calls[c].key, s.calls[c].at.re)
  {
    RunInv(steps, s);
    var key, id := s.calls[c].key, s.calls[c].at.re;
    OneRoomOneEvent(steps, s, key, rooms);
    OneEventStored(s, c);
    forall d | 0 <= d < |s.calls|
      ensures !Overwrites(s.calls[d], key, id)
    {
      NotOverwriting(s, c, d, rooms);
    }
    hide Run, Inv;
    RetryGetsEventIff(s, key, id);
  }

  lemma OneEventStored(s: Server, c: nat)
    requires Inv(s) && c < |s.calls| && s.calls[c].Send? && s.calls[c].at.Replied?
    requires !OnDevice(s, s.calls[c].key) && OneEvent(s, s.calls[c].key)
    ensures ReplyIs(s, s.calls[c].key, s.calls[c].at.re)
  {
    hide LocksOk, PostedOk;
    var key := s.calls[c].key;
    assert key in s.table && s.table[key].Reply?;
    assert Known(s, s.table[key].id, key) && Known(s, s.calls[c].at.re, key);
  }

  lemma NotOverwriting(s: Server, c: nat, d: nat, rooms: set<RoomId>)
    requires Inv(s) && c < |s.calls| && s.calls[c].Send? && s.calls[c].at.Replied? && d < |s.calls|
    requires !OnDevice(s, s.calls[c].key) && OneEvent(s, s.calls[c].key)
    requires SentOnlyTo(s, s.calls[c].key, rooms) && AtMostOne(rooms)
    ensures !Overwrites(s.calls[d], s.calls[c].key, s.calls[c].at.re)
  {
    hide LocksOk, PostedOk, EmptyOk;
    var key := s.calls[c].key;
    assert Known(s, s.calls[c].at.re, key);
    var i :| 0 <= i < |s.timeline| && s.timeline[i].id == s.calls[c].at.re && s.timeline[i].key == key;
    assert SentIn(s, key, s.timeline[i].room);
    if s.calls[d].Send? && s.calls[d].key == key {
      assert s.calls[d].room == s.timeline[i].room;
      assert Used(s, key, s.calls[d].room);
      if s.calls[d].at.Appended? {
        assert Known(s, s.calls[d].at.ev, key);
      }
    }
  }

  /** One id sent to two rooms at once: the retry in the first can be answered
      with the event of the second, although no to-device call is pending. */
  lemma RetryGetsOtherEvent(key: TxnKey, x: RoomId, y: RoomId, a: EventId, b: EventId)
    returns (steps: seq<Step>, s: Server)
    requires x != y && a != b
    ensures Run(steps, s) && ReplyIs(s, key, a) && !Pending(s, key) && AlwaysAnswered(s, key)
    ensures s.calls == [Send(key, x, Replied(a)), Send(key, y, Appended(b))]
    ensures !AlwaysReplies(s, key, a)
  {
    var s8;
    steps, s8 := BothAppended(key, x, y, a, b);
    hide Run;
    s := s8.(table := map[key := Reply(a)], locks := map[y := 1],
             calls := [Send(key, x, Replied(a)), Send(key, y, Appended(b))]);
    assert map[x := 0 as nat, y := 1] - {x} == map[y := 1];
    steps := Take(steps, s8, Record(0), s);
    RetryAnsweredIff(s, key);
    assert Overwrites(s.calls[1], key, a);
    RetryGetsEventIff(s, key, a);
  }

  lemma Extend(steps: seq<Step>, s: Server, step: Step)
    requires Run(steps, s) && Enabled(s, step)
    ensures Run(steps + [step], Next(s, step))
  {
    assert (steps + [step])[..|steps|] == steps;
  }

  /** One more step, with the state it leads to spelled out. */
  lemma Take(steps: seq<Step>, s: Server, step: Step, t: Server) returns (longer: seq<Step>)
    requires Run(steps, s) && Enabled(s, step) && t == Next(s, step)
    ensures Run(longer, t)
  {
    Extend(steps, s, step);
    longer := steps + [step];
  }

  /** The bound is per room: one id sent to two rooms at once posts two events
      and gets two replies, since the rooms' locks do not exclude each other. */
  lemma TwoRooms(key: TxnKey, x: RoomId, y: RoomId, a: EventId, b: EventId) returns (steps: seq<Step>, s: Server)
    requires x != y && a != b
    ensures Run(steps, s)
    ensures s.timeline == [Posted(a, x, key), Posted(b, y, key)]
    ensures s.calls == [Send(key, x, Replied(a)), Send(key, y, Replied(b))]
  {
    hide Run;
    var s8;
    steps, s8 := BothAppended(key, x, y, a, b);
    var s9 := s8.(table := map[key := Reply(a)], locks := map[y := 1],
                  calls := [Send(key, x, Replied(a)), Send(key, y, Appended(b))]);
    assert map[x := 0 as nat, y := 1] - {x} == map[y := 1];
    steps := Take(steps, s8, Record(0), s9);
    s := Next(s9, Record(1));
    steps := Take(steps, s9, Record(1), s);
  }

  lemma BothAppended(key: TxnKey, x: RoomId, y: RoomId, a: EventId, b: EventId) returns (steps: seq<Step>, s: Server)
    requires x != y && a != b
    ensures Run(steps, s)
    ensures s == Server(map[], [Posted(a, x, key), Posted(b, y, key)], map[x := 0, y := 1],
                        [Send(key, x, Appended(a)), Send(key, y, Appended(b))])
  {
    hide Run;
    var s4;
    steps, s4 := BothLocked(key, x, y);
    var s5 := Server(map[], [], map[x := 0, y := 1], [Send(key, x, Unseen), Send(key, y, Locked)]);
    steps := Take(steps, s4, Check(0), s5);
    var s6 := Server(map[], [], map[x := 0, y := 1], [Send(key, x, Unseen), Send(key, y, Unseen)]);
    steps := Take(steps, s5, Check(1), s6);
    var s7 := Server(map[], [Posted(a, x, key)], map[x := 0, y := 1],
                     [Send(key, x, Appended(a)), Send(key, y, Unseen)]);
    steps := Take(steps, s6, Append(0, a), s7);
    s := Server(map[], [Posted(a, x, key), Posted(b, y, key)], map[x := 0, y := 1],
                [Send(key, x, Appended(a)), Send(key, y, Appended(b))]);
    steps := Take(steps, s7, Append(1, b), s);
  }

  /** Every send of the id goes to one of the given rooms. */
  ghost predicate SentOnlyTo(s: Server, key: TxnKey, rooms: set<RoomId>) {
    forall c :: 0 <= c < |s.calls| && s.calls[c].Send? && s.calls[c].key == key ==> s.calls[c].room in rooms
  }

  ghost predicate OneEvent(s: Server, key: TxnKey) {
    forall i, j :: 0 <= i < |s.timeline| && 0 <= j < |s.timeline| && s.timeline[i].key == s.timeline[j].key == key ==>
      i == j
  }

  ghost predicate OneReply(s: Server, key: TxnKey) {
    forall c, d ::
      0 <= c < |s.calls| && 0 <= d < |s.calls| && Answered(s.calls[c], key) && Answered(s.calls[d], key) ==>
      s.calls[c].at.re == s.calls[d].at.re
  }

  predicate Answered(call: Call, key: TxnKey) {
    call.Send? && call.key == key && call.at.Replied?
  }

  /** However an id is used with the given rooms, it posts at most one event. */
  ghost predicate AlwaysOneEvent(key: TxnKey, rooms: set<RoomId>) {
    forall steps, s :: Run(steps, s) && SentOnlyTo(s, key, rooms) ==> OneEvent(s, key)
  }

  /** However an id is used with the given rooms, all its replies name one event. */
  ghost predicate AlwaysOneReply(key: TxnKey, rooms: set<RoomId>) {
    forall steps, s :: Run(steps, s) && SentOnlyTo(s, key, rooms) ==> OneReply(s, key)
  }

  predicate AtMostOne(rooms: set<RoomId>) {
    forall x, y :: x in rooms && y in rooms ==> x == y
  }

  lemma OneRoomOneEvent(steps: seq<Step>, s: Server, key: TxnKey, rooms: set<RoomId>)
    requires Run(steps, s) && SentOnlyTo(s, key, rooms) && AtMostOne(rooms)
    ensures OneEvent(s, key) && OneReply(s, key)
  {
    RunInv(steps, s);
    forall i, j | 0 <= i < |s.timeline| && 0 <= j < |s.timeline| && s.timeline[i].key == key && s.timeline[j].key == key
      ensures i == j
    {
      assert SentIn(s, key, s.timeline[i].room) && SentIn(s, key, s.timeline[j].room);
    }
    forall c, d | 0 <= c < |s.calls| && 0 <= d < |s.calls| && Answered(s.calls[c], key) && Answered(s.calls[d], key)
      ensures s.calls[c].at.re == s.calls[d].at.re
    {
      assert Known(s, s.calls[c].at.re, key) && Known(s, s.calls[d].at.re, key);
    }
  }

  /** One event and one reply per transaction id, in every interleaving, exactly
      if the id is used with at most one room. */
  lemma OneEventIff(key: TxnKey, rooms: set<RoomId>)
    ensures AlwaysOneEvent(key, rooms) <==> AtMostOne(rooms)
    ensures AlwaysOneReply(key, rooms) <==> AtMostOne(rooms)
  {
    if AtMostOne(rooms) {
      forall steps, s | Run(steps, s) && SentOnlyTo(s, key, rooms)
        ensures OneEvent(s, key) && OneReply(s, key)
      {
        OneRoomOneEvent(steps, s, key, rooms);
      }
    } else {
      var x, y :| x in rooms && y in rooms && x != y;
      var steps, s := TwoRooms(key, x, y, "", "$");
      hide Run;
      assert SentOnlyTo(s, key, rooms);
      assert s.timeline[0].key == s.timeline[1].key == key;
      assert !OneEvent(s, key);
      assert Answered(s.calls[0], key) && Answered(s.calls[1], key);
      assert !OneReply(s, key);
    }
  }

  lemma BothLocked(key: TxnKey, x: RoomId, y: RoomId) returns (steps: seq<Step>, s: Server)
    requires x != y
    ensures Run(steps, s)
    ensures s == Server(map[], [], map[x := 0, y := 1], [Send(key, x, Locked), Send(key, y, Locked)])
  {
    hide Run;
    EmptyRun();
    var s1 := Server(map[], [], map[], [Send(key, x, Waiting)]);
    steps := Take([], START, NewSend(key, x), s1);
    var s2 := Server(map[], [], map[], [Send(key, x, Waiting), Send(key, y, Waiting)]);
    steps := Take(steps, s1, NewSend(key, y), s2);
    var s3 := Server(map[], [], map[x := 0], [Send(key, x, Locked), Send(key, y, Waiting)]);
    steps := Take(steps, s2, Acquire(0), s3);
    s := Server(map[], [], map[x := 0, y := 1], [Send(key, x, Locked), Send(key, y, Locked)]);
    steps := Take(steps, s3, Acquire(1), s);
  }

  lemma EmptyRun()
    ensures Run([], START)
  {}

  /** A to-device call that looked before a send recorded, and records after it,
      overwrites the reply: the retry is refused instead of getting its event. */
  lemma RetryLost(key: TxnKey) returns (steps: seq<Step>, s: Server)
    ensures Run(steps, s)
    ensures |s.calls| == 3 && s.calls[1] == Send(key, "!x", Replied("$a"))
    ensures s.calls[2] == Send(key, "!x", Refused(Incompatible))
  {
    hide Run;
    var x, a := "!x", "$a";
    steps, s := SendBetween(key, x, a);
    var s8 := Server(map[key := Empty], [Posted(a, x, key)], map[],
                     [ToDevice(key, true, true), Send(key, x, Replied(a))]);
    steps := Take(steps, s, RecordToDevice(0), s8);
    var s9 := s8.(calls := [ToDevice(key, true, true), Send(key, x, Replied(a)), Send(key, x, Waiting)]);
    steps := Take(steps, s8, NewSend(key, x), s9);
    var s10 := s9.(locks := map[x := 2],
                   calls := [ToDevice(key, true, true), Send(key, x, Replied(a)), Send(key, x, Locked)]);
    steps := Take(steps, s9, Acquire(2), s10);
    s := Next(s10, Check(2));
    steps := Take(steps, s10, Check(2), s);
  }

  lemma SendBetween(key: TxnKey, x: RoomId, a: EventId) returns (steps: seq<Step>, s: Server)
    ensures Run(steps, s)
    ensures s == Server(map[key := Reply(a)], [Posted(a, x, key)], map[],
                        [ToDevice(key, true, false), Send(key, x, Replied(a))])
  {
    hide Run;
    EmptyRun();
    var s1 := Server(map[], [], map[], [ToDevice(key, false, false)]);
    steps := Take([], START, NewToDevice(key), s1);
    var s2 := Server(map[], [], map[], [ToDevice(key, true, false)]);
    steps := Take(steps, s1, CheckToDevice(0), s2);
    var s3 := Server(map[], [], map[], [ToDevice(key, true, false), Send(key, x, Waiting)]);
    steps := Take(steps, s2, NewSend(key, x), s3);
    var s4 := Server(map[], [], map[x := 1], [ToDevice(key, true, false), Send(key, x, Locked)]);
    steps := Take(steps, s3, Acquire(1), s4);
    var s5 := Server(map[], [], map[x := 1], [ToDevice(key, true, false), Send(key, x, Unseen)]);
    steps := Take(steps, s4, Check(1), s5);
    var s6 := Server(map[], [Posted(a, x, key)], map[x := 1], [ToDevice(key, true, false), Send(key, x, Appended(a))]);
    steps := Take(steps, s5, Append(1, a), s6);
    s := Server(map[key := Reply(a)], [Posted(a, x, key)], map[],
                [ToDevice(key, true, false), Send(key, x, Replied(a))]);
    assert map[x := 1 as nat] - {x} == map[];
    steps := Take(steps, s6, Record(1), s);
  }
}
