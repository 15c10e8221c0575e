/** Server-side key backup: one session key uploaded over another is kept only
    if it is better. */
module KeyBackup {
  import opened Common

  /** A field of the uploaded object: absent, of the wrong type, or a value. */
  datatype Field<T> = Missing | Malformed | Value(value: T)

  datatype Key = Key(verified: Field<bool>, index: Field<nat>, forwarded: Field<nat>, ciphertext: string)

  datatype Error = WrongVersion | NoBackup | BadField | FieldShouldExist

  datatype Result<T> = Ok(value: T) | Err(error: Error)

  /** What counts of a key when keys are compared. */
  datatype Rank = Rank(verified: bool, index: nat, forwarded: nat)

  function RankOf(k: Key): (r: Rank) {
    Rank(
      k.verified.Value? && k.verified.value,
      if k.index.Value? then k.index.value else UINT_MAX,
      if k.forwarded.Value? then k.forwarded.value else UINT_MAX)
  }

  /** Verified first, then the lower first message, then fewer forwards. */
  predicate Better(a: Rank, b: Rank) {
    || (a.verified && !b.verified)
    || (a.verified == b.verified && a.index < b.index)
    || (a.verified == b.verified && a.index == b.index && a.forwarded < b.forwarded)
  }

  predicate Complete(k: Key) {
    k.verified.Value? && k.index.Value? && k.forwarded.Value?
  }

  /** Whether the new key can be compared with the old one at all: going down
      the three fields until one tells the keys apart, the old one's is not
      malformed and the new one's is there. */
  predicate Comparable(prior: Key, upload: Key) {
    && !prior.verified.Malformed? && upload.verified.Value?
    && (RankOf(prior).verified == RankOf(upload).verified ==>
      && !prior.index.Malformed? && upload.index.Value?
      && (RankOf(prior).index == RankOf(upload).index ==>
        !prior.forwarded.Malformed? && upload.forwarded.Value?))
  }

  /** Going down the fields, the first one that cannot be compared is one that
      the new key does not have. */
  predicate FieldIsMissing(prior: Key, upload: Key) {
    && !prior.verified.Malformed?
    && (upload.verified.Missing? ||
        (SameVerified(prior, upload) && !prior.index.Malformed? &&
         (upload.index.Missing? ||
          (upload.index.Value? && upload.index.value == RankOf(prior).index &&
           !prior.forwarded.Malformed? && upload.forwarded.Missing?))))
  }

  /** Read an optional field of the old key. */
  function OldField<T>(f: Field<T>, fallback: T): (r: Result<T>) {
    match f
    case Missing => Ok(fallback)
    case Malformed => Err(BadField)
    case Value(v) => Ok(v)
  }

  /** Read a required field of the new key. */
  function NewField<T>(f: Field<T>): (r: Result<T>) {
    match f
    case Missing => Err(FieldShouldExist)
    case Malformed => Err(BadField)
    case Value(v) => Ok(v)
  }

  type User = string
  type Version = string
  type Slot = (User, Version, string, string)

  class KeyBackups {
    var latest: map<User, Version>
    var backups: set<(User, Version)>
    var keys: map<Slot, Key>
    var etag: map<(User, Version), nat>
    var counter: nat

    constructor ()
      ensures keys == map[] && latest == map[] && backups == {} && etag == map[]
    {
      latest, backups, keys, etag, counter := map[], {}, map[], map[], 0;
    }

    /** Store a key unconditionally in an existing backup. */
    method AddKey(slot: Slot, k: Key) returns (r: Result<()>)
      modifies this`keys, this`etag, this`counter
      ensures r == if (slot.0, slot.1) in backups then Ok(()) else Err(NoBackup)
      ensures keys == if r.Ok? then old(keys)[slot := k] else old(keys)
      ensures r.Ok? ==> counter > old(counter) && etag == old(etag)[(slot.0, slot.1) := counter]
      ensures r.Err? ==> counter == old(counter) && etag == old(etag)
    {
      if (slot.0, slot.1) !in backups {
        return Err(NoBackup);
      }
      counter := counter + 1;
      etag := etag[(slot.0, slot.1) := counter];
      keys := keys[slot := k];
      r := Ok(());
    }

    /** Upload one session key. It fails exactly if the version is not the
        latest, if the stored key and the new one cannot be compared, or if
        there is no such backup to write to; otherwise the slot holds the new
        key if that is strictly better than the stored one or there was none,
        and nothing else changes. */
    method AddSessionKey(slot: Slot, upload: Key) returns (r: Result<()>)
      modifies this`keys, this`etag, this`counter
      ensures r == Err(WrongVersion) <==> slot.0 in latest && latest[slot.0] != slot.1
      ensures r.Ok? <==>
        && (slot.0 in latest ==> latest[slot.0] == slot.1)
        && (slot in old(keys) ==> Comparable(old(keys)[slot], upload))
        && (slot !in old(keys) || Better(RankOf(upload), RankOf(old(keys)[slot])) ==> (slot.0, slot.1) in backups)
      ensures r == Err(NoBackup) <==>
        && (slot.0 in latest ==> latest[slot.0] == slot.1) && (slot.0, slot.1) !in backups
        && (slot in old(keys) ==>
              Comparable(old(keys)[slot], upload) && Better(RankOf(upload), RankOf(old(keys)[slot])))
      ensures r == Err(FieldShouldExist) <==>
        && (slot.0 in latest ==> latest[slot.0] == slot.1) && slot in old(keys)
        && FieldIsMissing(old(keys)[slot], upload)
      ensures r.Ok? ==> slot in keys && keys == old(keys)[slot := keys[slot]]
      ensures r.Ok? ==>
        Some(keys[slot]) == Put(if slot in old(keys) then Some(old(keys)[slot]) else None, upload)
      ensures r.Err? ==> keys == old(keys)
      ensures keys == old(keys) && slot in old(keys) && old(keys)[slot] != upload ==> etag == old(etag)
    {
      if slot.0 in latest && latest[slot.0] != slot.1 {
        return Err(WrongVersion);
      }
      var okToReplace := true;
      if slot in keys {
        var stored := keys[slot];
        var oldVerified := OldField(stored.verified, false);
        if oldVerified.Err? {
          return Err(oldVerified.error);
        }
        var newVerified := NewField(upload.verified);
        if newVerified.Err? {
          return Err(newVerified.error);
        }
        if oldVerified.value != newVerified.value {
          if oldVerified.value {
            okToReplace := false;
          }
        } else {
          var oldIndex := OldField(stored.index, UINT_MAX);
          if oldIndex.Err? {
            return Err(oldIndex.error);
          }
          var newIndex := NewField(upload.index);
          if newIndex.Err? {
            return Err(newIndex.error);
          }
          if newIndex.value < oldIndex.value {
            okToReplace := true;
          } else if newIndex.value > oldIndex.value {
            okToReplace := false;
          } else {
            var oldForwarded := OldField(stored.forwarded, UINT_MAX);
            if oldForwarded.Err? {
              return Err(oldForwarded.error);
            }
            var newForwarded := NewField(upload.forwarded);
            if newForwarded.Err? {
              return Err(newForwarded.error);
            }
            okToReplace := newForwarded.value < oldForwarded.value;
          }
        }
      }
      if okToReplace {
        var added := AddKey(slot, upload);
        if added.Err? {
          return Err(added.error);
        }
      }
      r := Ok(());
    }
  }

  // ----- sequences of uploads to one session of an existing, latest backup -----

  /** The slot after an upload that is allowed to write. */
  function Put(stored: Option<Key>, upload: Key): (r: Option<Key>)
    ensures r.Some?
    ensures stored.Some? ==> !Better(RankOf(stored.value), RankOf(r.value))
  {
    if stored.Some? && !(Comparable(stored.value, upload) && Better(RankOf(upload), RankOf(stored.value)))
    then stored else Some(upload)
  }

  /** The new key says of its verification what the stored one says, or says no
      where the stored one says nothing. */
  predicate SameVerified(k: Key, u: Key) {
    !k.verified.Malformed? && u.verified == Value(k.verified == Value(true))
  }

  /** A stored key that does not say whether it is verified gives way to every
      verified one; without an index or a forward count, it gives way to every
      key that equals it so far and has a number below the largest there is. */
  lemma MissingGivesWay(k: Key, u: Key)
    ensures k.verified.Missing? && u.verified == Value(true) ==> Put(Some(k), u) == Some(u)
    ensures SameVerified(k, u) && k.index.Missing? && u.index.Value? ==>
      (u.index.value < 0x1F_FFFF_FFFF_FFFF ==> Put(Some(k), u) == Some(u))
    ensures SameVerified(k, u) && k.index.Value? && u.index == k.index && k.forwarded.Missing? ==>
      (u.forwarded.Value? && u.forwarded.value < 0x1F_FFFF_FFFF_FFFF ==> Put(Some(k), u) == Some(u))
  {
  }

  function Stored(us: seq<Key>): (r: Option<Key>) {
    if us == [] then None else Put(Stored(us[..|us| - 1]), us[|us| - 1])
  }

  /** Whether the i-th upload was answered without an error. */
  predicate Answered(us: seq<Key>, i: nat)
    requires i < |us|
  {
    Stored(us[..i]).None? || Comparable(Stored(us[..i]).value, us[i])
  }

  /** The i-th upload is the earliest of the best among those answered. */
  predicate EarliestBest(us: seq<Key>, i: nat) {
    && i < |us| && Answered(us, i)
    && (forall j :: 0 <= j < |us| && Answered(us, j) ==> !Better(RankOf(us[j]), RankOf(us[i])))
    && (forall j :: 0 <= j < i && Answered(us, j) ==> Better(RankOf(us[i]), RankOf(us[j])))
  }

  lemma AnsweredPrefix(us: seq<Key>, i: nat)
    requires i < |us| - 1
    ensures Answered(us, i) == Answered(us[..|us| - 1], i)
  {
    assert us[..|us| - 1][..i] == us[..i];
  }

  /** Being no worse carries over. */
  lemma BetterCarries(a: Rank, b: Rank, c: Rank)
    requires Better(a, b) && !Better(c, b)
    ensures Better(a, c) && !Better(c, a)
  {
  }

  /** One more upload: the best so far stays, or the new one takes over. */
  lemma BestStep(us: seq<Key>, i: nat) returns (k: nat)
    requires |us| > 1 && EarliestBest(us[..|us| - 1], i)
    requires Stored(us[..|us| - 1]) == Some(us[i])
    ensures EarliestBest(us, k) && Stored(us) == Some(us[k])
  {
    var n := |us| - 1;
    forall j: nat | j < n
      ensures Answered(us, j) == Answered(us[..n], j)
    {
      AnsweredPrefix(us, j);
    }
    hide Comparable, RankOf;
    k := i;
    if Answered(us, n) && Better(RankOf(us[n]), RankOf(us[i])) {
      k := n;
      forall j | 0 <= j < n && Answered(us, j)
        ensures Better(RankOf(us[n]), RankOf(us[j])) && !Better(RankOf(us[j]), RankOf(us[n]))
      {
        assert Answered(us[..n], j) && us[..n][j] == us[j];
        BetterCarries(RankOf(us[n]), RankOf(us[i]), RankOf(us[j]));
      }
    } else {
      forall j | 0 <= j < n && Answered(us, j)
        ensures !Better(RankOf(us[j]), RankOf(us[i])) && (j < i ==> Better(RankOf(us[i]), RankOf(us[j])))
      {
        assert Answered(us[..n], j) && us[..n][j] == us[j];
      }
    }
  }

  /** The stored key is the earliest of the best uploads, whatever was uploaded. */
  lemma {:induction false} BestKeyWins(us: seq<Key>) returns (i: nat)
    requires us != []
    ensures EarliestBest(us, i) && Stored(us) == Some(us[i])
  {
    if |us| == 1 {
      i := 0;
    } else {
      hide EarliestBest;
      i := BestKeyWins(us[..|us| - 1]);
      assert i < |us| - 1 by {
        BestIsThere(us[..|us| - 1], i);
      }
      i := BestStep(us, i);
    }
  }

  lemma BestIsThere(us: seq<Key>, i: nat)
    requires EarliestBest(us, i)
    ensures i < |us|
  {
  }

  /** Once a key is stored, a further upload is answered with an error exactly
      if it cannot be compared, and complete keys always can. */
  lemma CompleteKeysAnswer(us: seq<Key>, i: nat)
    requires i < |us| && forall j :: 0 <= j < |us| ==> Complete(us[j])
    ensures Answered(us, i)
  {
    if i > 0 {
      var k := BestKeyWins(us[..i]);
      assert us[..i][k] == us[k];
    }
  }

  // ----- malformed first keys: the first upload to a session is not looked at -----

  predicate Bounded(k: Key) {
    && (k.index.Value? ==> k.index.value <= UINT_MAX)
    && (k.forwarded.Value? ==> k.forwarded.value <= UINT_MAX)
  }

  predicate WellFormed(k: Key) {
    !k.verified.Malformed? && !k.index.Malformed? && !k.forwarded.Malformed?
  }

  /** A complete upload that is better but cannot be compared, because of the
      first malformed field of the stored key. */
  function Hindered(k: Key): (u: Key)
    requires Bounded(k) && !WellFormed(k)
    ensures Complete(u) && Bounded(u) && Better(RankOf(u), RankOf(k)) && !Comparable(k, u)
  {
    var r := RankOf(k);
    if k.verified.Malformed? then Key(Value(true), Value(0), Value(0), "")
    else if k.index.Malformed? then Key(Value(r.verified), Value(0), Value(0), "")
    else Key(Value(r.verified), Value(r.index), Value(0), "")
  }

  /** A stored key gives way to every better complete upload exactly if none of
      its fields is malformed. */
  lemma GivesWayIff(k: Key)
    requires Bounded(k)
    ensures (forall u :: Complete(u) && Bounded(u) && Better(RankOf(u), RankOf(k)) ==> Comparable(k, u)) <==>
      WellFormed(k)
  {
    if !WellFormed(k) {
      var u := Hindered(k);
      assert Complete(u) && Bounded(u) && Better(RankOf(u), RankOf(k)) && !Comparable(k, u);
    }
  }

  /** Every further upload fails exactly if the verified field is malformed. */
  lemma AlwaysFailsIff(k: Key)
    ensures (forall u :: !Comparable(k, u)) <==> k.verified.Malformed?
  {
    if !k.verified.Malformed? {
      assert Comparable(k, Key(Value(!RankOf(k).verified), Missing, Missing, ""));
    }
  }

  /** The i-th upload is the earliest of the best among all, answered or not. */
  predicate BestOfAll(us: seq<Key>, i: nat) {
    && i < |us|
    && (forall j :: 0 <= j < |us| ==> !Better(RankOf(us[j]), RankOf(us[i])))
    && (forall j :: 0 <= j < i ==> Better(RankOf(us[i]), RankOf(us[j])))
  }

  predicate AllComplete(us: seq<Key>) {
    forall j :: 0 <= j < |us| ==> Complete(us[j]) && Bounded(us[j])
  }

  /** Whatever complete keys follow the first upload, the best of all is stored. */
  ghost predicate BestAlwaysWins(first: Key) {
    forall us :: AllComplete(us) ==>
      exists i: nat :: BestOfAll([first] + us, i) && Stored([first] + us) == Some(([first] + us)[i])
  }

  /** The best of all uploads is stored, whatever complete keys follow, exactly
      if no field of the first upload is malformed. */
  lemma BestAlwaysWinsIff(first: Key)
    requires Bounded(first)
    ensures BestAlwaysWins(first) <==> WellFormed(first)
  {
    if WellFormed(first) {
      forall us | AllComplete(us)
        ensures exists i: nat :: BestOfAll([first] + us, i) && Stored([first] + us) == Some(([first] + us)[i])
      {
        var i := AllAnswered(first, us);
      }
    } else {
      var u := Hindered(first);
      var all := [first] + [u];
      StoredTwo(first, u);
      hide Complete, Comparable, RankOf, Stored;
      assert AllComplete([u]);
      assert all[1] == u && Stored(all) == Some(first);
      assert forall i: nat :: BestOfAll(all, i) ==> Stored(all) != Some(all[i]);
    }
  }

  lemma StoredTwo(first: Key, u: Key)
    ensures Stored([first] + [u]) == Put(Some(first), u)
  {
    var all := [first] + [u];
    assert all[..1] == [first] && [first][..0] == [];
    assert Stored([first]) == Put(Stored([]), first);
  }

  lemma AllAnswered(first: Key, us: seq<Key>) returns (i: nat)
    requires WellFormed(first) && AllComplete(us)
    ensures BestOfAll([first] + us, i) && Stored([first] + us) == Some(([first] + us)[i])
  {
    var all := [first] + us;
    i := BestKeyWins(all);
    forall j | 0 <= j < |all|
      ensures Answered(all, j)
    {
      if j > 0 {
        var k := BestKeyWins(all[..j]);
        assert all[..j][k] == all[k];
        assert k > 0 ==> all[k] == us[k - 1];
        assert all[j] == us[j - 1];
      }
    }
  }

  /** What no sequence of uploads replaces. */
  ghost predicate NeverReplaced(first: Key) {
    forall us :: Stored([first] + us) == Some(first)
  }

  /** The best rank there is, or a malformed field where only a lower field could
      still decide. */
  predicate Frozen(k: Key) {
    || k.verified.Malformed?
    || (k.verified == Value(true) &&
        (k.index.Malformed? || (k.index == Value(0) && (k.forwarded.Malformed? || k.forwarded == Value(0)))))
  }

  lemma NothingReplaces(k: Key, u: Key)
    requires Frozen(k)
    ensures Put(Some(k), u) == Some(k)
  {
  }

  lemma {:induction false} FrozenStays(first: Key, us: seq<Key>)
    requires Frozen(first)
    ensures Stored([first] + us) == Some(first)
    decreases |us|
  {
    var all := [first] + us;
    if us == [] {
      assert all[..0] == [] && Stored(all) == Put(Stored(all[..0]), first);
    } else {
      var n := |us| - 1;
      FrozenStays(first, us[..n]);
      assert all[..|all| - 1] == [first] + us[..n];
      NothingReplaces(first, us[n]);
    }
  }

  /** Every upload after the first one is answered with an error. */
  ghost predicate LaterUploadsFail(first: Key) {
    forall us, i: nat :: 0 < i <= |us| ==> !Answered([first] + us, i)
  }

  /** After a first upload every later one fails exactly if the verified field of
      the first is malformed. */
  lemma LaterUploadsFailIff(first: Key)
    ensures LaterUploadsFail(first) <==> first.verified.Malformed?
  {
    AlwaysFailsIff(first);
    if first.verified.Malformed? {
      forall us, i: nat | 0 < i <= |us|
        ensures !Answered([first] + us, i)
      {
        FrozenStays(first, us[..i - 1]);
        assert ([first] + us)[..i] == [first] + us[..i - 1];
      }
    } else {
      var u :| Comparable(first, u);
      var all := [first] + [u];
      assert all[..1] == [first] + [] && Stored(all[..1]) == Put(Stored(all[..1][..0]), first);
      assert Answered(all, 1);
    }
  }

  /** An upload that replaces a key that is not frozen. */
  function Replacing(k: Key): (u: Key)
    requires !Frozen(k)
    ensures Complete(u) && Bounded(u) && Put(Some(k), u) == Some(u) != Some(k)
  {
    Key(Value(true), Value(0), Value(0), "")
  }

  /** Exactly which first uploads are never replaced. */
  lemma NeverReplacedIff(first: Key)
    ensures NeverReplaced(first) <==> Frozen(first)
  {
    if Frozen(first) {
      forall us
        ensures Stored([first] + us) == Some(first)
      {
        FrozenStays(first, us);
      }
    } else {
      var u := Replacing(first);
      StoredTwo(first, u);
      assert Stored([first] + [u]) != Some(first);
    }
  }

  /** A further upload never makes the stored key worse. */
  lemma NeverWorse(us: seq<Key>, vs: seq<Key>)
    requires us != []
    ensures Stored(us).Some? && Stored(us + vs).Some?
    ensures !Better(RankOf(Stored(us).value), RankOf(Stored(us + vs).value))
    decreases |vs|
  {
    if vs == [] {
      assert us + vs == us;
    } else {
      var n := |vs| - 1;
      NeverWorse(us, vs[..n]);
      assert (us + vs)[..|us + vs| - 1] == us + vs[..n];
    }
  }

  /** The final rank of complete uploads does not depend on their order. */
  lemma OrderDoesNotMatter(us: seq<Key>, vs: seq<Key>)
    requires us != [] && multiset(us) == multiset(vs)
    requires forall j :: 0 <= j < |us| ==> Complete(us[j])
    ensures Stored(us).Some? && Stored(vs).Some?
    ensures RankOf(Stored(us).value) == RankOf(Stored(vs).value)
  {
    forall j | 0 <= j < |vs|
      ensures Complete(vs[j]) && vs[j] in us
    {
      assert vs[j] in multiset(vs);
    }
    assert vs != [] by {
      assert us[0] in multiset(vs);
    }
    var i := BestKeyWins(us);
    var k := BestKeyWins(vs);
    assert us[i] in multiset(vs) && vs[k] in multiset(us);
    var i', k' :| 0 <= i' < |vs| && vs[i'] == us[i] && 0 <= k' < |us| && us[k'] == vs[k];
    CompleteKeysAnswer(vs, i');
    CompleteKeysAnswer(us, k');
    assert !Better(RankOf(us[i]), RankOf(vs[k])) && !Better(RankOf(vs[k]), RankOf(us[i]));
  }
}
