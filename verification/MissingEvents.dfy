/** The breadth-first walk behind the federation endpoint for missing events
    (Matrix Server-Server API, "Backfilling and retrieving missing events").
    The event store is a fixed snapshot. */
module MissingEvents {

  type EventId = string
  type RoomId = string

  /** A stored event. `rejected` and `visible` are the answers of the metadata
      and access services about it. */
  datatype Pdu = Pdu(room: RoomId, rejected: bool, visible: bool, prev: seq<EventId>)

  datatype Query = Query(
    store: map<EventId, Pdu>,
    room: RoomId,
    latest: seq<EventId>,
    earliest: set<EventId>,
    limit: nat)

  const MAX_BATCH: nat := 50

  /** An event as it leaves the server: redacted if the asker may not see it. */
  datatype Outgoing = Outgoing(id: EventId, redacted: bool)

  datatype Reply = Events(events: seq<Outgoing>) | NotInRoom(id: EventId)

  // ------------------------------------------------------------ specification

  /** Events the walk may pass through. */
  predicate Passable(q: Query, e: EventId) {
    && e in q.store && e !in q.earliest
    && q.store[e].room == q.room && !q.store[e].rejected
  }

  /** A known event of another room: the walk must not meet one. */
  predicate Foreign(q: Query, e: EventId) {
    e in q.store && e !in q.earliest && q.store[e].room != q.room
  }

  /** Events the walk does not skip. */
  predicate Heeded(q: Query, e: EventId) {
    Passable(q, e) || Foreign(q, e)
  }

  /** Passable events at most n hops behind the latest ones. */
  ghost function Within(q: Query, n: nat): (r: set<EventId>)
    ensures forall e :: e in r ==> Passable(q, e)
  {
    if n == 0 then set e | e in q.store && e in q.latest && Passable(q, e)
    else
      Within(q, n - 1)
      + set e | e in q.store && Passable(q, e) && exists p :: p in Within(q, n - 1) && e in q.store[p].prev
  }

  ghost predicate Reachable(q: Query, e: EventId) {
    exists n: nat :: e in Within(q, n)
  }

  /** What the endpoint is asked for. */
  ghost function Eligible(q: Query): set<EventId> {
    set e | e in q.store && e !in q.latest && Reachable(q, e)
  }

  /** A walk backwards through passable events, starting at a latest event. */
  predicate IsPath(q: Query, path: seq<EventId>) {
    && path != [] && path[0] in q.latest
    && (forall i :: 0 <= i < |path| ==> Passable(q, path[i]))
    && (forall i :: 0 <= i < |path| - 1 ==> path[i + 1] in q.store[path[i]].prev)
  }

  lemma {:induction false} WithinMonotone(q: Query, m: nat, n: nat)
    requires m <= n
    ensures Within(q, m) <= Within(q, n)
  {
    if m < n {
      WithinMonotone(q, m, n - 1);
    }
  }

  lemma {:induction false} PathIsWithin(q: Query, path: seq<EventId>)
    requires IsPath(q, path)
    ensures path[|path| - 1] in Within(q, |path| - 1)
    decreases |path|
  {
    var n := |path| - 1;
    if n > 0 {
      PathIsWithin(q, path[..n]);
      assert path[n] in q.store[path[n - 1]].prev;
    }
  }

  lemma {:induction false} WithinHasPath(q: Query, n: nat, e: EventId) returns (path: seq<EventId>)
    requires e in Within(q, n)
    ensures IsPath(q, path) && path[|path| - 1] == e && |path| <= n + 1
  {
    if n == 0 {
      path := [e];
    } else if e in Within(q, n - 1) {
      path := WithinHasPath(q, n - 1, e);
    } else {
      var p :| p in Within(q, n - 1) && e in q.store[p].prev;
      path := WithinHasPath(q, n - 1, p);
      path := path + [e];
    }
  }

  /** `Within` counts hops: it holds the ends of the paths of at most n hops. */
  lemma WithinCountsHops(q: Query, n: nat, e: EventId)
    ensures e in Within(q, n) <==>
              exists path :: IsPath(q, path) && path[|path| - 1] == e && |path| <= n + 1
  {
    if e in Within(q, n) {
      var path := WithinHasPath(q, n, e);
    }
    forall path | IsPath(q, path) && path[|path| - 1] == e && |path| <= n + 1
      ensures e in Within(q, n)
    {
      PathIsWithin(q, path);
      WithinMonotone(q, |path| - 1, n);
    }
  }

  // ------------------------------------------------------------- the invariant

  /** The walk with the bookkeeping of its proof: the hop count under which each
      queue entry was pushed, and the one under which each event was taken. */
  datatype Walk = Walk(queue: seq<EventId>, lvl: seq<nat>, done: map<EventId, nat>, results: seq<EventId>)

  /** x was named by the request, or by an event n - 1 hops away. */
  ghost predicate Named(q: Query, x: EventId, n: nat) {
    if n == 0 then x in q.latest else exists p :: p in Within(q, n - 1) && x in q.store[p].prev
  }

  /** Never falling, and at most one above the first. */
  ghost predicate Stepwise(lvl: seq<nat>) {
    forall i, j :: 0 <= i <= j < |lvl| ==> lvl[i] <= lvl[j] <= lvl[0] + 1
  }

  ghost predicate Levels(w: Walk) {
    && |w.queue| == |w.lvl|
    && Stepwise(w.lvl)
    && (w.lvl != [] ==> forall p :: p in w.done ==> w.done[p] <= w.lvl[0])
  }

  ghost predicate Sound(q: Query, w: Walk)
    requires Levels(w)
  {
    && (forall i :: 0 <= i < |w.queue| ==> Named(q, w.queue[i], w.lvl[i]))
    && (forall p :: p in w.done ==> p in Within(q, w.done[p]))
    && (forall p, n: nat :: p in w.done && n < w.done[p] ==> p !in Within(q, n))
  }

  ghost predicate Covered(w: Walk, e: EventId, n: nat)
    requires Levels(w)
  {
    || (e in w.done && w.done[e] <= n)
    || (exists i :: 0 <= i < |w.queue| && w.queue[i] == e && w.lvl[i] <= n)
  }

  ghost predicate Complete(q: Query, w: Walk)
    requires Levels(w)
  {
    && (forall e :: e in q.latest && Heeded(q, e) ==> Covered(w, e, 0))
    && (forall p, e :: p in w.done && p in q.store && e in q.store[p].prev && Heeded(q, e)
          ==> Covered(w, e, w.done[p] + 1))
  }

  ghost predicate ResultsOk(q: Query, w: Walk) {
    && (forall i, j :: 0 <= i < j < |w.results| ==> w.results[i] != w.results[j])
    && (forall e :: e in w.results <==> e in w.done && e !in q.latest)
    && (forall i, j :: 0 <= i < j < |w.results| ==>
          w.results[i] in w.done && w.results[j] in w.done && w.done[w.results[i]] <= w.done[w.results[j]])
  }

  ghost predicate Inv(q: Query, w: Walk) {
    Levels(w) && Sound(q, w) && Complete(q, w) && ResultsOk(q, w)
  }

  /** Every event closer than the front of the queue has been taken. */
  lemma {:induction false} CloserIsDone(q: Query, w: Walk, n: nat, e: EventId)
    requires Levels(w) && Complete(q, w)
    requires w.lvl == [] || n < w.lvl[0]
    requires e in Within(q, n)
    ensures e in w.done && w.done[e] <= n
  {
    if n == 0 {
      assert Covered(w, e, 0);
    } else if e in Within(q, n - 1) {
      CloserIsDone(q, w, n - 1, e);
    } else {
      var p :| p in Within(q, n - 1) && e in q.store[p].prev;
      CloserIsDone(q, w, n - 1, p);
      assert Passable(q, p) && Heeded(q, e);
      assert Covered(w, e, w.done[p] + 1);
    }
  }

  ghost function Start(q: Query): Walk {
    Walk(q.latest, seq(|q.latest|, _ => 0), map[], [])
  }

  lemma StartOk(q: Query)
    ensures Inv(q, Start(q))
  {
    var w := Start(q);
    forall e | e in q.latest ensures Covered(w, e, 0) {
      var i :| 0 <= i < |q.latest| && q.latest[i] == e;
      assert w.lvl[i] == 0;
    }
  }

  /** Dropping the front entry: it was taken before, or is of no interest. */
  ghost function Dropped(w: Walk): Walk
    requires w.queue != [] && w.lvl != []
  {
    w.(queue := w.queue[1..], lvl := w.lvl[1..])
  }

  lemma DropOk(q: Query, w: Walk)
    requires Inv(q, w) && w.queue != []
    requires !Heeded(q, w.queue[0]) || w.queue[0] in w.done
    ensures Inv(q, Dropped(w))
  {
    var w' := Dropped(w);
    assert Levels(w');
    assert Sound(q, w');
    forall e, n: nat | Covered(w, e, n) && Heeded(q, e)
      ensures Covered(w', e, n)
    {
      DropCovered(q, w, e, n);
    }
  }

  lemma DropCovered(q: Query, w: Walk, e: EventId, n: nat)
    requires Levels(w) && w.queue != [] && Levels(Dropped(w))
    requires !Heeded(q, w.queue[0]) || w.queue[0] in w.done
    requires Covered(w, e, n) && Heeded(q, e)
    ensures Covered(Dropped(w), e, n)
  {
    if !(e in w.done && w.done[e] <= n) {
      var i :| 0 <= i < |w.queue| && w.queue[i] == e && w.lvl[i] <= n;
      if i > 0 {
        assert Dropped(w).queue[i - 1] == e;
        assert Dropped(w).lvl[i - 1] <= n;
      }
    }
  }

  /** Taking the front entry: its predecessors join the queue one hop further. */
  ghost function Taken(q: Query, w: Walk): Walk
    requires w.queue != [] && w.lvl != [] && w.queue[0] in q.store
  {
    var e, l := w.queue[0], w.lvl[0];
    var prev := q.store[e].prev;
    Walk(w.queue[1..] + prev, w.lvl[1..] + seq(|prev|, _ => l + 1), w.done[e := l],
         if e in q.latest then w.results else w.results + [e])
  }

  lemma TakeOk(q: Query, w: Walk)
    requires Inv(q, w) && w.queue != []
    requires Passable(q, w.queue[0]) && w.queue[0] !in w.done
    ensures Inv(q, Taken(q, w))
  {
    TakeLevels(q, w);
    TakeSound(q, w);
    TakeComplete(q, w);
    TakeResults(q, w);
  }

  lemma StepwiseGrows(lvl: seq<nat>, added: seq<nat>)
    requires lvl != [] && Stepwise(lvl)
    requires forall i :: 0 <= i < |added| ==> added[i] == lvl[0] + 1
    ensures Stepwise(lvl[1..] + added)
    ensures lvl[1..] + added != [] ==> lvl[0] <= (lvl[1..] + added)[0]
  {
    var all, k := lvl[1..] + added, |lvl| - 1;
    assert forall i :: 0 <= i < |all| ==> all[i] == if i < k then lvl[i + 1] else lvl[0] + 1;
    assert forall i :: 0 <= i < |lvl| ==> lvl[0] <= lvl[i] <= lvl[0] + 1;
  }

  lemma TakeLevels(q: Query, w: Walk)
    requires Levels(w) && w.queue != [] && w.queue[0] in q.store
    ensures Levels(Taken(q, w))
  {
    hide Stepwise;
    StepwiseGrows(w.lvl, seq(|q.store[w.queue[0]].prev|, _ => w.lvl[0] + 1));
  }

  lemma TakeSound(q: Query, w: Walk)
    requires Inv(q, w) && w.queue != []
    requires Passable(q, w.queue[0]) && w.queue[0] !in w.done
    requires Levels(Taken(q, w))
    ensures Sound(q, Taken(q, w))
  {
    hide Complete, ResultsOk, Named, Within, Stepwise;
    var w', e, l := Taken(q, w), w.queue[0], w.lvl[0];
    FrontDistance(q, w);
    forall i | 0 <= i < |w'.queue| ensures Named(q, w'.queue[i], w'.lvl[i]) {
      if i < |w.queue| - 1 {
        assert Named(q, w.queue[i + 1], w.lvl[i + 1]);
      } else {
        assert w'.queue[i] in q.store[e].prev && w'.lvl[i] == l + 1;
        NamedBy(q, e, w'.queue[i], l);
      }
    }
  }

  lemma NamedBy(q: Query, p: EventId, x: EventId, n: nat)
    requires p in Within(q, n) && x in q.store[p].prev
    ensures Named(q, x, n + 1)
  {}

  /** The front entry's hop count is its distance. */
  lemma FrontDistance(q: Query, w: Walk)
    requires Inv(q, w) && w.queue != []
    requires Passable(q, w.queue[0]) && w.queue[0] !in w.done
    ensures w.queue[0] in Within(q, w.lvl[0])
    ensures forall n: nat :: n < w.lvl[0] ==> w.queue[0] !in Within(q, n)
  {
    hide ResultsOk, Complete;
    var e, l := w.queue[0], w.lvl[0];
    assert Named(q, e, l);
    forall n: nat | n < l ensures e !in Within(q, n) {
      if e in Within(q, n) {
        CloserIsDone(q, w, n, e);
      }
    }
  }

  lemma TakeCovered(q: Query, w: Walk, e: EventId, n: nat)
    requires Levels(w) && w.queue != [] && w.queue[0] in q.store && w.queue[0] !in w.done && Levels(Taken(q, w))
    requires Covered(w, e, n)
    ensures Covered(Taken(q, w), e, n)
  {
    hide Stepwise;
    var w' := Taken(q, w);
    if e in w.done && w.done[e] <= n {
      assert w'.done[e] <= n;
    } else {
      var i :| 0 <= i < |w.queue| && w.queue[i] == e && w.lvl[i] <= n;
      if i > 0 {
        assert w'.queue[i - 1] == e && w'.lvl[i - 1] <= n;
      }
    }
  }

  lemma TakeComplete(q: Query, w: Walk)
    requires Inv(q, w) && w.queue != []
    requires Passable(q, w.queue[0]) && w.queue[0] !in w.done
    requires Levels(Taken(q, w))
    ensures Complete(q, Taken(q, w))
  {
    hide Sound, ResultsOk, Within, Taken;
    var w' := Taken(q, w);
    forall e | e in q.latest && Heeded(q, e) ensures Covered(w', e, 0) {
      TakeCovered(q, w, e, 0);
    }
    forall p, e | p in w'.done && p in q.store && e in q.store[p].prev && Heeded(q, e)
      ensures Covered(w', e, w'.done[p] + 1)
    {
      TakeNext(q, w, p, e);
    }
  }

  lemma TakeNext(q: Query, w: Walk, p: EventId, e: EventId)
    requires Inv(q, w) && w.queue != []
    requires w.queue[0] in q.store && w.queue[0] !in w.done
    requires Levels(Taken(q, w))
    requires p in Taken(q, w).done && p in q.store && e in q.store[p].prev && Heeded(q, e)
    ensures Covered(Taken(q, w), e, Taken(q, w).done[p] + 1)
  {
    hide Sound, ResultsOk, Within, Passable, Heeded;
    var w', x, l := Taken(q, w), w.queue[0], w.lvl[0];
    if p == x {
      var j :| 0 <= j < |q.store[x].prev| && q.store[x].prev[j] == e;
      assert w'.queue[|w.queue| - 1 + j] == e && w'.lvl[|w.queue| - 1 + j] == l + 1;
    } else {
      assert Covered(w, e, w.done[p] + 1);
      TakeCovered(q, w, e, w.done[p] + 1);
    }
  }

  lemma TakeResults(q: Query, w: Walk)
    requires Inv(q, w) && w.queue != []
    requires w.queue[0] in q.store && w.queue[0] !in w.done
    ensures ResultsOk(q, Taken(q, w))
  {
    var w', x := Taken(q, w), w.queue[0];
    assert x !in w.results;
    if x !in q.latest {
      assert w'.results == w.results + [x];
      forall i | 0 <= i < |w.results| ensures w.results[i] in w.done {
        assert w.results[i] in w.results;
      }
    }
  }

  // ----------------------------------------------------- what the results mean

  ghost function SetOf(s: seq<EventId>): (r: set<EventId>)
    ensures forall e :: e in r <==> e in s
  {
    set e | e in s
  }

  lemma {:induction false} DistinctCount(s: seq<EventId>)
    requires forall i, j :: 0 <= i < j < |s| ==> s[i] != s[j]
    ensures |SetOf(s)| == |s|
  {
    if s != [] {
      var n := |s| - 1;
      DistinctCount(s[..n]);
      assert SetOf(s) == SetOf(s[..n]) + {s[n]};
    }
  }

  lemma SubsetCount(a: set<EventId>, b: set<EventId>)
    requires a <= b
    ensures |a| <= |b|
    ensures |a| == |b| ==> a == b
  {
    assert b == a + (b - a);
    assert |b| == |a| + |b - a|;
  }

  /** The promises about the events that were picked, oldest last. */
  ghost predicate Answers(q: Query, limit: nat, results: seq<EventId>) {
    && (forall i, j :: 0 <= i < j < |results| ==> results[i] != results[j])
    && (forall e :: e in results ==> e in Eligible(q))
    // as many as allowed, or all there are
    && |results| == (if limit < |Eligible(q)| then limit else |Eligible(q)|)
    // nearest first: an event at least as far as n hops is preceded by all closer ones
    && (forall n: nat, e, r :: r in results && r !in Within(q, n) && e in Within(q, n) && e !in q.latest ==>
          e in results)
    && (forall i, j, n: nat :: 0 <= i < j < |results| && results[j] in Within(q, n) ==> results[i] in Within(q, n))
  }

  lemma DoneIsReachable(q: Query, w: Walk)
    requires Inv(q, w)
    ensures SetOf(w.results) <= Eligible(q)
  {
    forall e | e in w.results ensures e in Eligible(q) {
      assert e in Within(q, w.done[e]);
    }
  }

  lemma ResultOrder(q: Query, w: Walk, i: nat, j: nat, n: nat)
    requires Inv(q, w) && i < j < |w.results| && w.results[j] in Within(q, n)
    ensures w.results[i] in Within(q, n)
  {
    var a, b := w.results[i], w.results[j];
    assert w.done[a] <= w.done[b];
    assert w.done[b] <= n;
    WithinMonotone(q, w.done[a], n);
  }

  /** Closer eligible events are already among the results, both when the queue
      ran dry and when the limit stopped the walk. */
  lemma CloserIsResult(q: Query, w: Walk, n: nat, e: EventId, r: EventId)
    requires Inv(q, w)
    requires r in w.results && r !in Within(q, n) && e in Within(q, n) && e !in q.latest
    ensures e in w.results
  {
    if w.done[r] <= n {
      WithinMonotone(q, w.done[r], n);
    }
    CloserIsDone(q, w, n, e);
  }

  /** An event of another room that is named is still in the queue, no closer
      than its front. */
  lemma ForeignIsAhead(q: Query, w: Walk, x: EventId, n: nat)
    requires Inv(q, w) && Foreign(q, x) && Named(q, x, n)
    ensures w.lvl != [] && w.lvl[0] <= n
  {
    assert x !in w.done && Heeded(q, x);
    if n == 0 {
      assert Covered(w, x, 0);
    } else {
      var p :| p in Within(q, n - 1) && x in q.store[p].prev;
      if w.lvl == [] || n - 1 < w.lvl[0] {
        CloserIsDone(q, w, n - 1, p);
        assert Passable(q, p);
        hide Within, Passable, Sound, ResultsOk;
        assert Covered(w, x, w.done[p] + 1);
      }
    }
  }

  /** The walk came to its end without being led to another room: nothing of
      another room is named unless the limit was reached, and then nothing that
      is closer than a picked event. */
  ghost predicate StayedInRoom(q: Query, limit: nat, results: seq<EventId>) {
    forall x, n: nat :: Foreign(q, x) && Named(q, x, n) ==>
      |results| == limit && forall r :: r in results ==> r in Within(q, n)
  }

  lemma WalkStayed(q: Query, w: Walk, limit: nat)
    requires Inv(q, w) && (w.queue == [] || |w.results| == limit)
    ensures StayedInRoom(q, limit, w.results)
  {
    forall x, n: nat | Foreign(q, x) && Named(q, x, n)
      ensures |w.results| == limit && forall r :: r in w.results ==> r in Within(q, n)
    {
      ForeignIsAhead(q, w, x, n);
      forall r | r in w.results
        ensures r in Within(q, n)
      {
        WithinMonotone(q, w.done[r], n);
      }
    }
  }

  lemma WalkAnswers(q: Query, w: Walk, limit: nat)
    requires Inv(q, w) && |w.results| <= limit
    requires w.queue == [] || |w.results| == limit
    ensures Answers(q, limit, w.results)
  {
    DoneIsReachable(q, w);
    DistinctCount(w.results);
    SubsetCount(SetOf(w.results), Eligible(q));
    if w.queue == [] {
      forall e | e in Eligible(q) ensures e in w.results {
        var n: nat :| e in Within(q, n);
        CloserIsDone(q, w, n, e);
      }
      assert SetOf(w.results) == Eligible(q);
    }
    forall n: nat, e, r | r in w.results && r !in Within(q, n) && e in Within(q, n) && e !in q.latest
      ensures e in w.results
    {
      CloserIsResult(q, w, n, e, r);
    }
    forall i, j, n: nat | 0 <= i < j < |w.results| && w.results[j] in Within(q, n)
      ensures w.results[i] in Within(q, n)
    {
      ResultOrder(q, w, i, j, n);
    }
  }

  // ------------------------------------------------------------------ the walk

  function Limit(asked: nat): nat {
    if asked < MAX_BATCH then asked else MAX_BATCH
  }

  /** The ids of a reply, newest first again. */
  function Picked(events: seq<Outgoing>): (ids: seq<EventId>)
    ensures |ids| == |events|
  {
    seq(|events|, i requires 0 <= i < |events| => events[|events| - 1 - i].id)
  }

  ghost predicate Sent(q: Query, picked: seq<EventId>, events: seq<Outgoing>) {
    && |picked| == |events|
    && forall i :: 0 <= i < |events| ==>
          events[i].id == picked[i] && picked[i] in q.store && (events[i].redacted <==> !q.store[picked[i]].visible)
  }

  method Reverse(s: seq<Outgoing>) returns (r: seq<Outgoing>)
    ensures |r| == |s| && forall i :: 0 <= i < |s| ==> r[i] == s[|s| - 1 - i]
  {
    r := [];
    for i := 0 to |s|
      invariant |r| == i && forall k :: 0 <= k < i ==> r[k] == s[i - 1 - k]
    {
      r := [s[i]] + r;
    }
  }

  lemma InvShape(q: Query, w: Walk)
    requires Inv(q, w)
    ensures |w.queue| == |w.lvl|
    ensures forall p :: p in w.done ==> Passable(q, p)
  {
    forall p | p in w.done ensures Passable(q, p) {
      assert p in Within(q, w.done[p]);
    }
  }

  lemma FrontNamed(q: Query, w: Walk)
    requires Inv(q, w) && w.queue != []
    ensures exists n: nat :: Named(q, w.queue[0], n)
  {
    assert Named(q, w.queue[0], w.lvl[0]);
  }

  lemma SentReversed(q: Query, picked: seq<EventId>, results: seq<Outgoing>, events: seq<Outgoing>)
    requires Sent(q, picked, results)
    requires |events| == |results| && forall i :: 0 <= i < |events| ==> events[i] == results[|events| - 1 - i]
    ensures Picked(events) == picked
    ensures forall e :: e in events ==> e.id in q.store && (e.redacted <==> !q.store[e.id].visible)
  {
    forall i | 0 <= i < |picked| ensures Picked(events)[i] == picked[i] {
      assert events[|events| - 1 - i] == results[i];
    }
  }

  /** What is picked, in the terms of the store. */
  lemma AnswersMean(q: Query, limit: nat, results: seq<EventId>)
    requires Answers(q, limit, results)
    ensures forall e :: e in results ==>
              && e in q.store && q.store[e].room == q.room && !q.store[e].rejected
              && e !in q.earliest && e !in q.latest
    ensures |results| <= limit && (|results| < limit ==> |results| == |Eligible(q)|)
  {
    forall e | e in results ensures Passable(q, e) && e !in q.latest {
      assert e in Eligible(q);
      var n: nat :| e in Within(q, n);
    }
  }

  lemma PickedHasAll(events: seq<Outgoing>)
    ensures forall e :: e in events ==> e.id in Picked(events)
  {
    forall e | e in events ensures e.id in Picked(events) {
      var i :| 0 <= i < |events| && events[i] == e;
      assert Picked(events)[|events| - 1 - i] == e.id;
    }
  }

  /** The reply lists, oldest first, distinct eligible events: as many as the
      limit allows and always the closest ones, redacted where the asker may not
      see them. `NotInRoom` names a known event of another room that the walk
      was led to; without that error the walk was led to none. */
  method GetMissingEvents(q: Query) returns (reply: Reply)
    ensures reply.Events? ==> Answers(q, Limit(q.limit), Picked(reply.events))
    ensures reply.Events? ==> forall e :: e in reply.events ==>
              && e.id in q.store && (e.redacted <==> !q.store[e.id].visible)
              && q.store[e.id].room == q.room && !q.store[e.id].rejected && e.id !in q.earliest && e.id !in q.latest
    ensures reply.Events? ==> |reply.events| <= q.limit && |reply.events| <= 50
    ensures reply.Events? && |reply.events| < q.limit && |reply.events| < 50 ==> |reply.events| == |Eligible(q)|
    ensures reply.Events? ==> StayedInRoom(q, Limit(q.limit), Picked(reply.events))
    ensures reply.NotInRoom? ==> Foreign(q, reply.id) && exists n: nat :: Named(q, reply.id, n)
  {
    hide Inv, Answers, Named, Levels, Sound, Complete, ResultsOk, StayedInRoom;
    var limit := Limit(q.limit);
    var queue := q.latest;
    var results: seq<Outgoing> := [];
    var seen := q.earliest;
    ghost var w := Start(q);
    StartOk(q);
    while queue != []
      invariant Inv(q, w) && w.queue == queue
      invariant seen == q.earliest + w.done.Keys
      invariant |results| <= limit && Sent(q, w.results, results)
      decreases q.store.Keys - w.done.Keys, |queue|
    {
      var next := queue[0];
      InvShape(q, w);
      if next in seen {
        DropOk(q, w);
        w, queue := Dropped(w), queue[1..];
        continue;
      }
      if |results| >= limit {
        break;
      }
      if next !in q.store {
        DropOk(q, w);
        w, queue := Dropped(w), queue[1..];
        continue;
      }
      var pdu := q.store[next];
      if pdu.room != q.room {
        FrontNamed(q, w);
        return NotInRoom(next);
      }
      if pdu.rejected {
        DropOk(q, w);
        w, queue := Dropped(w), queue[1..];
        continue;
      }
      TakeOk(q, w);
      ghost var untaken := q.store.Keys - w.done.Keys;
      w, queue := Taken(q, w), queue[1..] + pdu.prev;
      assert next in untaken && q.store.Keys - w.done.Keys == untaken - {next};
      seen := seen + {next};
      if next in q.latest {
        continue;
      }
      results := results + [Outgoing(next, !pdu.visible)];
    }
    WalkAnswers(q, w, limit);
    WalkStayed(q, w, limit);
    var events := Reverse(results);
    SentReversed(q, w.results, results, events);
    AnswersMean(q, limit, w.results);
    assert forall e :: e in events ==> e.id in Picked(events) by {
      PickedHasAll(events);
    }
    reply := Events(events);
  }
}
