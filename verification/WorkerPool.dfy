/** The database worker pool: bounded queues, workers that serve one queue each,
    and a close that drains and joins. Channels are FIFO, refuse sends once
    closed, and hand out what is left to receivers before these see the end. */
module WorkerPool {

  // ------------------------------------------------------------------ spawning

  /** Workers serving queue g. */
  function Serving(workers: seq<nat>, g: nat): nat {
    if workers == [] then 0
    else Serving(workers[..|workers| - 1], g) + (if workers[|workers| - 1] == g then 1 else 0)
  }

  /** Worker ids go round the queues. */
  predicate RoundRobin(workers: seq<nat>, queues: nat) {
    queues > 0 && forall id :: 0 <= id < |workers| ==> workers[id] == id % queues
  }

  /** With d full turns and r workers more, the first r queues have one extra. */
  lemma {:induction false} ServingCount(workers: seq<nat>, queues: nat, g: nat, d: nat, r: nat)
    requires RoundRobin(workers, queues) && g < queues && r < queues
    requires |workers| == d * queues + r
    ensures Serving(workers, g) == d + (if g < r then 1 else 0)
    decreases |workers|
  {
    if workers != [] {
      var n := |workers| - 1;
      var (d', r') := if r > 0 then (d, r - 1) else (d - 1, queues - 1);
      LastId(n, queues, d, r);
      ServingCount(workers[..n], queues, g, d', r');
    }
  }

  lemma LastId(n: nat, q: nat, d: nat, r: nat)
    requires q > 0 && r < q && n + 1 == d * q + r
    ensures r > 0 ==> n % q == r - 1
    ensures r == 0 ==> d > 0 && n == (d - 1) * q + (q - 1) && n % q == q - 1
  {
    if r > 0 {
      Remainder(n, q, d, r - 1);
    } else {
      assert d > 0;
      assert n == (d - 1) * q + (q - 1);
      Remainder(n, q, d - 1, q - 1);
    }
  }

  lemma Remainder(n: nat, q: nat, d: nat, r: nat)
    requires q > 0 && n == d * q + r && r < q
    ensures n / q == d && n % q == r
  {
    assert n == (n / q) * q + n % q;
    SameQuotient(n / q, n % q, d, r, q);
  }

  lemma {:induction false} SameQuotient(d: nat, r: nat, e: nat, s: nat, q: nat)
    requires r < q && s < q && d * q + r == e * q + s
    ensures d == e && r == s
  {
    if d > 0 && e > 0 {
      assert d * q == (d - 1) * q + q && e * q == (e - 1) * q + q;
      SameQuotient(d - 1, r, e - 1, s, q);
    } else if d > 0 {
      TakesRoom(d, q);
    } else if e > 0 {
      TakesRoom(e, q);
    }
  }

  lemma TakesRoom(d: nat, q: nat)
    requires d > 0
    ensures d * q >= q
  {
    assert d * q == (d - 1) * q + q;
  }

  /** Spawns workers until there are `count`; each takes the next queue in turn.
      The shares of the queues differ by at most one, and no queue goes without
      a worker when there are at least as many workers as queues. */
  method SpawnUntil(existing: seq<nat>, queues: nat, count: nat) returns (workers: seq<nat>)
    requires RoundRobin(existing, queues)
    ensures existing <= workers && RoundRobin(workers, queues)
    ensures |workers| == if |existing| < count then count else |existing|
    ensures forall g, h :: 0 <= g < queues && 0 <= h < queues ==> Serving(workers, g) <= Serving(workers, h) + 1
    ensures |workers| >= queues ==> forall g :: 0 <= g < queues ==> Serving(workers, g) >= 1
  {
    workers := existing;
    while |workers| < count
      invariant existing <= workers && RoundRobin(workers, queues)
      invariant |workers| <= if |existing| < count then count else |existing|
    {
      var id := |workers|;
      workers := workers + [id % queues];
    }
    ghost var d, r := |workers| / queues, |workers| % queues;
    forall g | 0 <= g < queues ensures Serving(workers, g) == d + (if g < r then 1 else 0) {
      ServingCount(workers, queues, g, d, r);
    }
    assert |workers| == d * queues + r;
    assert d == 0 ==> |workers| < queues;
  }

  // -------------------------------------------------------------- the machine

  datatype Queue = Queue(items: seq<nat>, cap: nat, closed: bool)

  datatype WorkerAt = Idle | Busy(cmd: nat) | Exited

  datatype Worker = Worker(queue: nat, at: WorkerAt)

  /** A submitted command. `Sending` waits for room in its queue. */
  datatype CmdAt =
    | Sending
    | Queued
    | Running(worker: nat)
    | Refused
    | Cancelled
    | Answered

  /** `abandoned`: the submitter stopped waiting. */
  datatype Cmd = Cmd(queue: nat, at: CmdAt, abandoned: bool)

  /** A call of `close`: it took the worker handles or found none, closes the
      queues one by one, then joins what it took. */
  datatype Closer = Closer(took: bool, closedTo: nat, joinedTo: nat, returned: bool)

  datatype Pool = Pool(
    queues: seq<Queue>, workers: seq<Worker>, handles: bool,
    cmds: seq<Cmd>, closers: seq<Closer>)

  datatype Step =
    | Submit(q: nat)
    | Enqueue(c: nat)
    | Refuse(c: nat)
    | Abandon(c: nat)
    | Receive(w: nat)
    | Finish(w: nat)
    | Exit(w: nat)
    | BeginClose
    | CloseQueue(k: nat)
    | Join(k: nat)
    | EndClose(k: nat)

  predicate Enabled(p: Pool, step: Step) {
    match step
    case Submit(q) => q < |p.queues|
    case Enqueue(c) =>
      && c < |p.cmds| && p.cmds[c].at.Sending? && p.cmds[c].queue < |p.queues|
      && !p.queues[p.cmds[c].queue].closed && |p.queues[p.cmds[c].queue].items| < p.queues[p.cmds[c].queue].cap
    case Refuse(c) =>
      c < |p.cmds| && p.cmds[c].at.Sending? && p.cmds[c].queue < |p.queues| && p.queues[p.cmds[c].queue].closed
    case Abandon(c) => c < |p.cmds| && !p.cmds[c].abandoned && !Settled(p.cmds[c])
    case Receive(w) =>
      && w < |p.workers| && p.workers[w].at.Idle? && p.workers[w].queue < |p.queues|
      && p.queues[p.workers[w].queue].items != [] && p.queues[p.workers[w].queue].items[0] < |p.cmds|
    case Finish(w) => w < |p.workers| && p.workers[w].at.Busy? && p.workers[w].at.cmd < |p.cmds|
    case Exit(w) =>
      && w < |p.workers| && p.workers[w].at.Idle? && p.workers[w].queue < |p.queues|
      && p.queues[p.workers[w].queue].items == [] && p.queues[p.workers[w].queue].closed
    case BeginClose => true
    case CloseQueue(k) => k < |p.closers| && p.closers[k].closedTo < |p.queues|
    case Join(k) =>
      && k < |p.closers| && p.closers[k].took && p.closers[k].closedTo == |p.queues|
      && p.closers[k].joinedTo < |p.workers| && p.workers[p.closers[k].joinedTo].at.Exited?
    case EndClose(k) =>
      && k < |p.closers| && !p.closers[k].returned && p.closers[k].closedTo == |p.queues|
      && (p.closers[k].took ==> p.closers[k].joinedTo == |p.workers|)
  }

  /** No step changes a settled command. */
  predicate Settled(c: Cmd) {
    c.at.Refused? || c.at.Cancelled? || c.at.Answered?
  }

  function SetCmd(p: Pool, c: nat, at: CmdAt): Pool
    requires c < |p.cmds|
  {
    p.(cmds := p.cmds[c := p.cmds[c].(at := at)])
  }

  function Next(p: Pool, step: Step): Pool
    requires Enabled(p, step)
  {
    match step
    case Submit(q) => p.(cmds := p.cmds + [Cmd(q, Sending, false)])
    case Enqueue(c) =>
      var q := p.cmds[c].queue;
      SetCmd(p, c, Queued).(queues := p.queues[q := p.queues[q].(items := p.queues[q].items + [c])])
    case Refuse(c) => SetCmd(p, c, Refused)
    case Abandon(c) =>
      p.(cmds := p.cmds[c := Cmd(p.cmds[c].queue, if p.cmds[c].at.Sending? then Cancelled else p.cmds[c].at, true)])
    case Receive(w) =>
      var q := p.workers[w].queue;
      var c := p.queues[q].items[0];
      SetCmd(p, c, Running(w)).(
        queues := p.queues[q := p.queues[q].(items := p.queues[q].items[1..])],
        workers := p.workers[w := Worker(q, Busy(c))])
    case Finish(w) =>
      var c := p.workers[w].at.cmd;
      SetCmd(p, c, if p.cmds[c].abandoned then Cancelled else Answered).(
        workers := p.workers[w := Worker(p.workers[w].queue, Idle)])
    case Exit(w) => p.(workers := p.workers[w := Worker(p.workers[w].queue, Exited)])
    case BeginClose => p.(closers := p.closers + [Closer(p.handles, 0, 0, false)], handles := false)
    case CloseQueue(k) =>
      var q := p.closers[k].closedTo;
      p.(queues := p.queues[q := p.queues[q].(closed := true)],
         closers := p.closers[k := p.closers[k].(closedTo := q + 1)])
    case Join(k) => p.(closers := p.closers[k := p.closers[k].(joinedTo := p.closers[k].joinedTo + 1)])
    case EndClose(k) => p.(closers := p.closers[k := p.closers[k].(returned := true)])
  }

  /** A new pool: empty open queues with some capacity, and spawned workers. */
  predicate Fresh(p: Pool) {
    && |p.queues| > 0
    && (forall q :: 0 <= q < |p.queues| ==> p.queues[q].items == [] && !p.queues[q].closed && p.queues[q].cap > 0)
    && (forall w :: 0 <= w < |p.workers| ==> p.workers[w] == Worker(w % |p.queues|, Idle))
    && p.handles && p.cmds == [] && p.closers == []
  }

  ghost predicate Run(start: Pool, steps: seq<Step>, p: Pool)
    decreases |steps|
  {
    if steps == [] then p == start
    else
      var n := |steps| - 1;
      exists t :: Run(start, steps[..n], t) && Enabled(t, steps[n]) && p == Next(t, steps[n])
  }

  // ------------------------------------------------------------ the invariant

  ghost predicate Bounds(p: Pool) {
    && |p.queues| > 0
    && (forall w :: 0 <= w < |p.workers| ==> p.workers[w].queue == w % |p.queues|)
    && (forall c :: 0 <= c < |p.cmds| ==> p.cmds[c].queue < |p.queues|)
  }

  /** What is in a queue is a command queued for it, once. */
  ghost predicate ItemsOk(p: Pool) {
    && (forall q, i :: 0 <= q < |p.queues| && 0 <= i < |p.queues[q].items| ==>
          && p.queues[q].items[i] < |p.cmds|
          && p.cmds[p.queues[q].items[i]].at == Queued
          && p.cmds[p.queues[q].items[i]].queue == q)
    && (forall q, i, j :: 0 <= q < |p.queues| && 0 <= i < j < |p.queues[q].items| ==>
          p.queues[q].items[i] != p.queues[q].items[j])
  }

  /** A queued command is in its queue. */
  ghost predicate QueuedOk(p: Pool)
    requires Bounds(p)
  {
    forall c :: 0 <= c < |p.cmds| && p.cmds[c].at.Queued? ==> c in p.queues[p.cmds[c].queue].items
  }

  /** Workers and running commands name each other. */
  ghost predicate RunningOk(p: Pool) {
    && (forall w :: 0 <= w < |p.workers| && p.workers[w].at.Busy? ==>
          p.workers[w].at.cmd < |p.cmds| && p.cmds[p.workers[w].at.cmd].at == Running(w))
    && (forall c :: 0 <= c < |p.cmds| && p.cmds[c].at.Running? ==>
          p.cmds[c].at.worker < |p.workers| && p.workers[p.cmds[c].at.worker].at == Busy(c))
  }

  /** Where a command is and where it is noted agree. */
  ghost predicate Placed(p: Pool)
    requires Bounds(p)
  {
    ItemsOk(p) && QueuedOk(p) && RunningOk(p)
  }

  ghost predicate ClosingOk(p: Pool)
    requires Bounds(p)
  {
    && (forall w :: 0 <= w < |p.workers| && p.workers[w].at.Exited? ==>
          p.queues[p.workers[w].queue].closed && p.queues[p.workers[w].queue].items == [])
    && (forall k :: 0 <= k < |p.closers| ==>
          && p.closers[k].closedTo <= |p.queues| && p.closers[k].joinedTo <= |p.workers|
          && (forall q :: 0 <= q < p.closers[k].closedTo ==> p.queues[q].closed)
          && (forall w :: 0 <= w < p.closers[k].joinedTo ==> p.workers[w].at.Exited?)
          && (!p.closers[k].took ==> p.closers[k].joinedTo == 0)
          && (p.closers[k].returned ==>
                p.closers[k].closedTo == |p.queues| && (p.closers[k].took ==> p.closers[k].joinedTo == |p.workers|)))
  }

  ghost predicate Inv(p: Pool) {
    Bounds(p) && Placed(p) && ClosingOk(p)
  }

  lemma FreshInv(p: Pool)
    requires Fresh(p)
    ensures Inv(p)
  {}

  lemma BoundsKept(p: Pool, step: Step)
    requires Inv(p) && Enabled(p, step)
    ensures Bounds(Next(p, step))
  {
    hide ClosingOk;
  }

  lemma ClosingKept(p: Pool, step: Step)
    requires Inv(p) && Enabled(p, step) && Bounds(Next(p, step))
    ensures ClosingOk(Next(p, step))
  {
    hide Placed;
  }

  lemma EnqueuePlaced(p: Pool, c: nat)
    requires Inv(p) && Enabled(p, Enqueue(c)) && Bounds(Next(p, Enqueue(c)))
    ensures Placed(Next(p, Enqueue(c)))
  {
    hide ClosingOk;
    var t, q := Next(p, Enqueue(c)), p.cmds[c].queue;
    assert c !in p.queues[q].items;
    assert t.queues[q].items == p.queues[q].items + [c];
  }

  lemma ReceiveItems(p: Pool, w: nat)
    requires ItemsOk(p) && Enabled(p, Receive(w))
    ensures ItemsOk(Next(p, Receive(w)))
  {
    hide Settled;
    var t, q := Next(p, Receive(w)), p.workers[w].queue;
    assert forall i :: 0 <= i < |t.queues[q].items| ==> t.queues[q].items[i] == p.queues[q].items[i + 1];
  }

  lemma ReceiveQueued(p: Pool, w: nat)
    requires Bounds(p) && QueuedOk(p) && Enabled(p, Receive(w)) && Bounds(Next(p, Receive(w)))
    ensures QueuedOk(Next(p, Receive(w)))
  {
    hide Settled;
    var t, q := Next(p, Receive(w)), p.workers[w].queue;
    assert p.queues[q].items == [p.queues[q].items[0]] + t.queues[q].items;
  }

  lemma ReceiveRunning(p: Pool, w: nat)
    requires ItemsOk(p) && RunningOk(p) && Enabled(p, Receive(w))
    ensures RunningOk(Next(p, Receive(w)))
  {
    hide Settled;
    var q := p.workers[w].queue;
    assert p.cmds[p.queues[q].items[0]].at == Queued;
    hide ItemsOk;
  }

  lemma ReceivePlaced(p: Pool, w: nat)
    requires Inv(p) && Enabled(p, Receive(w)) && Bounds(Next(p, Receive(w)))
    ensures Placed(Next(p, Receive(w)))
  {
    hide ClosingOk, ItemsOk, QueuedOk, RunningOk, Enabled, Next, Bounds;
    ReceiveItems(p, w);
    ReceiveQueued(p, w);
    ReceiveRunning(p, w);
  }

  lemma FinishPlaced(p: Pool, w: nat)
    requires Inv(p) && Enabled(p, Finish(w)) && Bounds(Next(p, Finish(w)))
    ensures Placed(Next(p, Finish(w)))
  {
    hide ClosingOk;
  }

  lemma SubmitPlaced(p: Pool, q: nat)
    requires Inv(p) && Enabled(p, Submit(q)) && Bounds(Next(p, Submit(q)))
    ensures Placed(Next(p, Submit(q)))
  {
    hide ClosingOk;
  }

  lemma CmdPlaced(p: Pool, step: Step)
    requires Inv(p) && Enabled(p, step) && Bounds(Next(p, step)) && (step.Refuse? || step.Abandon?)
    ensures Placed(Next(p, step))
  {
    hide ClosingOk;
  }

  lemma OtherPlaced(p: Pool, step: Step)
    requires Inv(p) && Enabled(p, step) && Bounds(Next(p, step))
    requires step.Exit? || step.BeginClose? || step.CloseQueue? || step.Join? || step.EndClose?
    ensures Placed(Next(p, step))
  {
    hide ClosingOk;
  }

  lemma PlacedKept(p: Pool, step: Step)
    requires Inv(p) && Enabled(p, step) && Bounds(Next(p, step))
    ensures Placed(Next(p, step))
  {
    hide ClosingOk, Placed, Next, Bounds, Enabled;
    match step {
      case Enqueue(c) => EnqueuePlaced(p, c);
      case Receive(w) => ReceivePlaced(p, w);
      case Finish(w) => FinishPlaced(p, w);
      case Submit(q) => SubmitPlaced(p, q);
      case Refuse(c) => CmdPlaced(p, Refuse(c));
      case Abandon(c) => CmdPlaced(p, Abandon(c));
      case Exit(_) => OtherPlaced(p, step);
      case BeginClose => OtherPlaced(p, step);
      case CloseQueue(_) => OtherPlaced(p, step);
      case Join(_) => OtherPlaced(p, step);
      case EndClose(_) => OtherPlaced(p, step);
    }
  }

  lemma {:induction false} RunInv(start: Pool, steps: seq<Step>, p: Pool)
    requires Fresh(start) && Run(start, steps, p)
    ensures Inv(p) && |p.queues| == |start.queues| && |p.workers| == |start.workers|
    decreases |steps|
  {
    if steps == [] {
      FreshInv(p);
    } else {
      var n := |steps| - 1;
      var t :| Run(start, steps[..n], t) && Enabled(t, steps[n]) && p == Next(t, steps[n]);
      RunInv(start, steps[..n], t);
      BoundsKept(t, steps[n]);
      PlacedKept(t, steps[n]);
      ClosingKept(t, steps[n]);
    }
  }

  // ----------------------------------------------------------------- results

  /** A command that was refused, cancelled or answered stays what it is: no
      command gets a second outcome. */
  lemma SettledForever(p: Pool, step: Step, c: nat)
    requires Inv(p) && Enabled(p, step) && c < |p.cmds| && Settled(p.cmds[c])
    ensures c < |Next(p, step).cmds| && Next(p, step).cmds[c] == p.cmds[c]
  {
    match step {
      case Receive(w) => assert p.cmds[p.queues[p.workers[w].queue].items[0]].at == Queued;
      case Finish(w) => assert p.cmds[p.workers[w].at.cmd].at == Running(w);
      case _ =>
    }
  }

  /** The pools that further steps lead to. */
  ghost predicate Leads(p: Pool, steps: seq<Step>, q: Pool)
    decreases |steps|
  {
    if steps == [] then q == p
    else
      var n := |steps| - 1;
      exists t :: Leads(p, steps[..n], t) && Enabled(t, steps[n]) && q == Next(t, steps[n])
  }

  lemma {:induction false} LeadsInv(p: Pool, steps: seq<Step>, q: Pool)
    requires Inv(p) && Leads(p, steps, q)
    ensures Inv(q)
    decreases |steps|
  {
    hide Inv, Enabled, Next;
    if steps != [] {
      var n := |steps| - 1;
      var t :| Leads(p, steps[..n], t) && Enabled(t, steps[n]) && q == Next(t, steps[n]);
      LeadsInv(p, steps[..n], t);
      InvKept(t, steps[n]);
    }
  }

  /** In every continuation of every run a command that was refused, cancelled or
      answered stays what it is: no command ever gets a second outcome. */
  lemma {:induction false} OneOutcome(start: Pool, steps: seq<Step>, p: Pool, more: seq<Step>, q: Pool, c: nat)
    requires Fresh(start) && Run(start, steps, p) && Leads(p, more, q)
    requires c < |p.cmds| && Settled(p.cmds[c])
    ensures c < |q.cmds| && q.cmds[c] == p.cmds[c]
    decreases |more|
  {
    hide Inv, Enabled, Next, Fresh, Run;
    if more != [] {
      var n := |more| - 1;
      var t :| Leads(p, more[..n], t) && Enabled(t, more[n]) && q == Next(t, more[n]);
      OneOutcome(start, steps, p, more[..n], t, c);
      RunInv(start, steps, p);
      LeadsInv(p, more[..n], t);
      SettledForever(t, more[n], c);
    }
  }

  /** What an outcome says: cancelled only if the submitter left, answered only if
      it did not, refused only by a closed queue. */
  ghost predicate OutcomesOk(p: Pool) {
    forall c :: 0 <= c < |p.cmds| ==>
      && (p.cmds[c].at.Cancelled? ==> p.cmds[c].abandoned)
      && (p.cmds[c].at.Answered? ==> !p.cmds[c].abandoned)
      && (p.cmds[c].at.Refused? ==> p.cmds[c].queue < |p.queues| && p.queues[p.cmds[c].queue].closed)
  }

  lemma OutcomesKept(p: Pool, step: Step)
    requires OutcomesOk(p) && Enabled(p, step)
    ensures OutcomesOk(Next(p, step))
  {
  }

  /** In every run outcomes are what they say. */
  lemma {:induction false} OutcomesAreTrue(start: Pool, steps: seq<Step>, p: Pool)
    requires Fresh(start) && Run(start, steps, p)
    ensures OutcomesOk(p)
    decreases |steps|
  {
    hide Enabled, Next;
    if steps != [] {
      var n := |steps| - 1;
      var t :| Run(start, steps[..n], t) && Enabled(t, steps[n]) && p == Next(t, steps[n]);
      OutcomesAreTrue(start, steps[..n], t);
      OutcomesKept(t, steps[n]);
    }
  }

  /** Queues hold no more than the capacities they started with. */
  ghost predicate QueuesFit(p: Pool, start: Pool) {
    |p.queues| == |start.queues| &&
    forall q :: 0 <= q < |p.queues| ==>
      p.queues[q].cap == start.queues[q].cap && |p.queues[q].items| <= start.queues[q].cap
  }

  lemma QueuesFitKept(p: Pool, step: Step, start: Pool)
    requires QueuesFit(p, start) && Enabled(p, step)
    ensures QueuesFit(Next(p, step), start)
  {
  }

  /** In every run no queue holds more commands than it has room for. */
  lemma {:induction false} QueuesStayBounded(start: Pool, steps: seq<Step>, p: Pool)
    requires Fresh(start) && Run(start, steps, p)
    ensures QueuesFit(p, start)
    decreases |steps|
  {
    if steps != [] {
      hide Enabled, Next, QueuesFit;
      var n := |steps| - 1;
      var t :| Run(start, steps[..n], t) && Enabled(t, steps[n]) && p == Next(t, steps[n]);
      QueuesStayBounded(start, steps[..n], t);
      QueuesFitKept(t, steps[n], start);
    }
  }

  /** Command c stands before d in a queue. */
  ghost predicate Before(p: Pool, c: nat, d: nat) {
    exists q, i, j :: 0 <= q < |p.queues| && 0 <= i < j < |p.queues[q].items| &&
      p.queues[q].items[i] == c && p.queues[q].items[j] == d
  }

  /** What one step does to a queue: the first command leaves it, or others are
      added at the end. */
  lemma QueueStep(p: Pool, step: Step, q: nat)
    requires Enabled(p, step) && q < |p.queues|
    ensures var t := Next(p, step);
            && |t.queues| == |p.queues| && |p.cmds| <= |t.cmds|
            && if step.Receive? && p.workers[step.w].queue == q
               then p.queues[q].items == [p.queues[q].items[0]] + t.queues[q].items
                    && !t.cmds[p.queues[q].items[0]].at.Queued?
               else p.queues[q].items <= t.queues[q].items
  {
    hide Settled;
  }

  /** One step: c still stands before d, or c has left its queue. */
  lemma FirstInStep(p: Pool, step: Step, c: nat, d: nat)
    requires Enabled(p, step) && Before(p, c, d) && c < |p.cmds|
    ensures c < |Next(p, step).cmds|
    ensures Before(Next(p, step), c, d) || !Next(p, step).cmds[c].at.Queued?
  {
    var q, i, j :| 0 <= q < |p.queues| && 0 <= i < j < |p.queues[q].items| &&
                   p.queues[q].items[i] == c && p.queues[q].items[j] == d;
    QueueStep(p, step, q);
    var t := Next(p, step);
    var k := if step.Receive? && p.workers[step.w].queue == q then 1 else 0;
    hide Next, Enabled;
    if i >= k {
      assert t.queues[q].items[i - k] == c && t.queues[q].items[j - k] == d;
    }
  }

  /** A command that has left its queue does not come back. */
  lemma LeavesOnce(p: Pool, step: Step, c: nat)
    requires Inv(p) && Enabled(p, step) && c < |p.cmds| && !p.cmds[c].at.Queued? && !p.cmds[c].at.Sending?
    ensures c < |Next(p, step).cmds| && !Next(p, step).cmds[c].at.Queued? && !Next(p, step).cmds[c].at.Sending?
  {
    hide ClosingOk;
  }

  /** First in, first out: as long as c is queued it stands before d, whatever
      happens, so that d is never served first. */
  lemma {:induction false} FirstInFirstOut(p: Pool, steps: seq<Step>, t: Pool, c: nat, d: nat)
    requires Inv(p) && Leads(p, steps, t) && Before(p, c, d)
    ensures c < |t.cmds| && (Before(t, c, d) || (!t.cmds[c].at.Queued? && !t.cmds[c].at.Sending?))
    decreases |steps|
  {
    if steps == [] {
      InQueue(p, c, d);
    } else {
      hide Inv, Enabled, Next, Before;
      var n := |steps| - 1;
      var u :| Leads(p, steps[..n], u) && Enabled(u, steps[n]) && t == Next(u, steps[n]);
      FirstInFirstOut(p, steps[..n], u, c, d);
      LeadsInv(p, steps[..n], u);
      if Before(u, c, d) {
        InQueue(u, c, d);
        FirstInStep(u, steps[n], c, d);
        NotSentAgain(u, steps[n], c);
      } else {
        LeavesOnce(u, steps[n], c);
      }
    }
  }

  lemma InQueue(p: Pool, c: nat, d: nat)
    requires Inv(p) && Before(p, c, d)
    ensures c < |p.cmds| && d < |p.cmds| && p.cmds[c].at.Queued? && p.cmds[d].at.Queued?
  {
    hide ClosingOk, RunningOk, QueuedOk;
  }

  lemma NotSentAgain(p: Pool, step: Step, c: nat)
    requires Enabled(p, step) && c < |p.cmds| && !p.cmds[c].at.Sending?
    ensures c < |Next(p, step).cmds| && !Next(p, step).cmds[c].at.Sending?
  {
  }

  /** When the close that took the workers has returned, every queue is closed
      and empty, as the destructor asserts; every command has its one outcome,
      except submitters still waiting for room, who can only be refused or leave.
      Those who did not leave were answered or refused. */
  lemma Drained(start: Pool, steps: seq<Step>, p: Pool, k: nat)
    requires Fresh(start) && |start.workers| >= |start.queues| && Run(start, steps, p)
    requires k < |p.closers| && p.closers[k].took && p.closers[k].returned
    ensures forall q :: 0 <= q < |p.queues| ==> p.queues[q].closed && p.queues[q].items == []
    ensures forall w :: 0 <= w < |p.workers| ==> p.workers[w].at.Exited?
    ensures forall c :: 0 <= c < |p.cmds| ==>
      Settled(p.cmds[c]) || (p.cmds[c].at.Sending? && Enabled(p, Refuse(c)) && !Enabled(p, Enqueue(c)))
    ensures forall c :: 0 <= c < |p.cmds| && !p.cmds[c].abandoned ==>
      p.cmds[c].at.Answered? || p.cmds[c].at.Refused? || p.cmds[c].at.Sending?
  {
    RunInv(start, steps, p);
    OutcomesAreTrue(start, steps, p);
    forall q | 0 <= q < |p.queues| ensures p.queues[q].closed && p.queues[q].items == [] {
      assert p.workers[q].at.Exited?;
      OwnQueue(q, |p.queues|);
    }
    forall c | 0 <= c < |p.cmds| ensures Settled(p.cmds[c]) || p.cmds[c].at.Sending? {
    }
  }

  lemma OwnQueue(q: nat, n: nat)
    requires q < n
    ensures q % n == q
  {}

  // ------------------------------------------------------- close comes to an end

  function Waiting(qs: seq<Queue>): (n: nat) {
    if qs == [] then 0 else Waiting(qs[..|qs| - 1]) + |qs[|qs| - 1].items|
  }

  function Weight(at: WorkerAt): (n: nat) {
    match at
    case Idle => 1
    case Busy(_) => 2
    case Exited => 0
  }

  function Load(ws: seq<Worker>): (n: nat) {
    if ws == [] then 0 else Load(ws[..|ws| - 1]) + Weight(ws[|ws| - 1].at)
  }

  lemma {:induction false} WaitingUpdate(qs: seq<Queue>, i: nat, q: Queue)
    requires i < |qs|
    ensures Waiting(qs[i := q]) + |qs[i].items| == Waiting(qs) + |q.items|
  {
    var n := |qs| - 1;
    if i < n {
      WaitingUpdate(qs[..n], i, q);
      assert qs[i := q][..n] == qs[..n][i := q];
    } else {
      assert qs[i := q][..n] == qs[..n];
    }
  }

  lemma {:induction false} LoadUpdate(ws: seq<Worker>, i: nat, w: Worker)
    requires i < |ws|
    ensures Load(ws[i := w]) + Weight(ws[i].at) == Load(ws) + Weight(w.at)
  {
    var n := |ws| - 1;
    if i < n {
      LoadUpdate(ws[..n], i, w);
      assert ws[i := w][..n] == ws[..n][i := w];
    } else {
      assert ws[i := w][..n] == ws[..n];
    }
  }

  /** What is left to do before a call of close can return: queues to close,
      commands to serve, workers to end and to join. */
  ghost function ToDo(p: Pool, k: nat): (n: nat)
    requires Inv(p) && k < |p.closers|
  {
    (|p.queues| - p.closers[k].closedTo) + (|p.workers| - p.closers[k].joinedTo) +
    (if p.closers[k].returned then 0 else 1) + 3 * Waiting(p.queues) + Load(p.workers)
  }

  lemma InvKept(p: Pool, step: Step)
    requires Inv(p) && Enabled(p, step)
    ensures Inv(Next(p, step))
  {
    hide Next, Enabled, Placed, ClosingOk;
    BoundsKept(p, step);
    PlacedKept(p, step);
    ClosingKept(p, step);
  }

  /** A step of a worker, or of the closing call itself. */
  predicate Works(step: Step, k: nat) {
    step.Receive? || step.Finish? || step.Exit? || step == CloseQueue(k) || step == Join(k) || step == EndClose(k)
  }

  lemma SameWaiting(qs: seq<Queue>, i: nat)
    requires i < |qs|
    ensures Waiting(qs[i := qs[i].(closed := true)]) == Waiting(qs)
  {
    WaitingUpdate(qs, i, qs[i].(closed := true));
  }

  lemma WorkerShrinks(p: Pool, step: Step)
    requires Enabled(p, step) && (step.Receive? || step.Finish? || step.Exit?)
    ensures var t := Next(p, step);
            && |t.queues| == |p.queues| && |t.workers| == |p.workers| && t.closers == p.closers
            && 3 * Waiting(t.queues) + Load(t.workers) < 3 * Waiting(p.queues) + Load(p.workers)
  {
    hide Waiting, Load, Settled;
    match step {
      case Receive(w) =>
        var q := p.workers[w].queue;
        WaitingUpdate(p.queues, q, p.queues[q].(items := p.queues[q].items[1..]));
        LoadUpdate(p.workers, w, Worker(q, Busy(p.queues[q].items[0])));
      case Finish(w) => LoadUpdate(p.workers, w, Worker(p.workers[w].queue, Idle));
      case Exit(w) => LoadUpdate(p.workers, w, Worker(p.workers[w].queue, Exited));
    }
  }

  /** Every such step leaves less to do. */
  lemma WorkShrinks(p: Pool, step: Step, k: nat)
    requires Inv(p) && k < |p.closers| && Enabled(p, step) && Works(step, k)
    ensures Inv(Next(p, step)) && k < |Next(p, step).closers|
    ensures ToDo(Next(p, step), k) < ToDo(p, k)
  {
    hide Inv, Bounds, Placed, ClosingOk, Waiting, Load, Settled;
    InvKept(p, step);
    if step.Receive? || step.Finish? || step.Exit? {
      hide Next, Enabled;
      WorkerShrinks(p, step);
    } else if step.CloseQueue? {
      SameWaiting(p.queues, p.closers[k].closedTo);
    }
  }

  /** Once a call has closed all queues, no step of anyone adds to its work. */
  lemma NothingAddsWork(p: Pool, step: Step, k: nat)
    requires Inv(p) && k < |p.closers| && p.closers[k].closedTo == |p.queues| && Enabled(p, step)
    ensures Inv(Next(p, step)) && k < |Next(p, step).closers|
    ensures Next(p, step).closers[k].closedTo == |Next(p, step).queues|
    ensures ToDo(Next(p, step), k) <= ToDo(p, k)
  {
    if Works(step, k) {
      WorkShrinks(p, step, k);
    } else {
      InvKept(p, step);
      assert !step.Enqueue?;
      hide Inv, Bounds, Placed, ClosingOk, Waiting, Load;
      if step.CloseQueue? {
        SameWaiting(p.queues, p.closers[step.k].closedTo);
      }
    }
  }

  /** While a call of close has not returned, some such step is possible. */
  lemma WorkIsPossible(p: Pool, k: nat) returns (step: Step)
    requires Inv(p) && k < |p.closers| && !p.closers[k].returned
    ensures Works(step, k) && Enabled(p, step)
  {
    var c := p.closers[k];
    if c.closedTo < |p.queues| {
      step := CloseQueue(k);
    } else if !c.took || c.joinedTo == |p.workers| {
      step := EndClose(k);
    } else {
      var w := p.workers[c.joinedTo];
      match w.at
      case Exited => step := Join(k);
      case Busy(_) => step := Finish(c.joinedTo);
      case Idle =>
        assert p.queues[w.queue].closed;
        step := if p.queues[w.queue].items == [] then Exit(c.joinedTo) else Receive(c.joinedTo);
    }
  }

  /** From every reachable state, each call of close can come to its end by
      steps of the workers and its own alone. */
  lemma {:induction false} CloseCanReturn(start: Pool, steps: seq<Step>, p: Pool, k: nat)
    returns (more: seq<Step>, q: Pool)
    requires Fresh(start) && Run(start, steps, p) && Inv(p) && k < |p.closers|
    ensures Run(start, steps + more, q) && k < |q.closers| && q.closers[k].returned
    ensures forall i :: 0 <= i < |more| ==> Works(more[i], k)
    decreases ToDo(p, k)
  {
    hide Run, Inv, Enabled, Works, ToDo, Next, Fresh;
    if p.closers[k].returned {
      more, q := [], p;
      assert steps + more == steps;
    } else {
      var step := WorkIsPossible(p, k);
      WorkShrinks(p, step, k);
      var t := Next(p, step);
      RunSnoc(start, steps, p, step);
      var rest;
      rest, q := CloseCanReturn(start, steps + [step], t, k);
      more := [step] + rest;
      assert steps + more == (steps + [step]) + rest;
    }
  }

  lemma RunSnoc(start: Pool, steps: seq<Step>, p: Pool, step: Step)
    requires Run(start, steps, p) && Enabled(p, step)
    ensures Run(start, steps + [step], Next(p, step))
  {
    assert (steps + [step])[..|steps|] == steps;
  }

  // ------------------------------------------------ a close without the workers

  /** The pool after a command was queued and two calls of close began. */
  ghost predicate TwoClosing(start: Pool, p: Pool) {
    && |start.queues| > 0 && |p.queues| == |start.queues|
    && p.queues[0].items == [0] && p.workers == start.workers && p.cmds == [Cmd(0, Queued, false)]
    && |p.closers| == 2 && p.closers[0].took && !p.closers[1].took && !p.closers[1].returned
    && p.closers[1].closedTo <= |p.queues|
  }

  /** The second call closes the remaining queues and returns. */
  lemma {:induction false} SecondFinishes(start: Pool, steps: seq<Step>, p: Pool) returns (longer: seq<Step>, q: Pool)
    requires Run(start, steps, p) && TwoClosing(start, p)
    ensures Run(start, longer, q) && |q.queues| == |start.queues| > 0 && q.queues[0].items == [0]
    ensures |q.closers| == 2 && !q.closers[1].took && q.closers[1].returned
    decreases |p.queues| - p.closers[1].closedTo
  {
    hide Run;
    var step := if p.closers[1].closedTo < |p.queues| then CloseQueue(1) else EndClose(1);
    RunSnoc(start, steps, p, step);
    if step == EndClose(1) {
      longer, q := steps + [step], Next(p, step);
    } else {
      assert Next(p, step).queues[0].items == [0];
      longer, q := SecondFinishes(start, steps + [step], Next(p, step));
    }
  }

  lemma QueueFirst(start: Pool) returns (steps: seq<Step>, p: Pool)
    requires Fresh(start)
    ensures Run(start, steps, p)
    ensures |p.queues| == |start.queues| && p.queues[0].items == [0] && p.workers == start.workers
    ensures p.cmds == [Cmd(0, Queued, false)] && p.handles && p.closers == []
  {
    assert Run(start, [], start);
    hide Run;
    var p1 := Next(start, Submit(0));
    RunSnoc(start, [], start, Submit(0));
    assert p1.cmds == [Cmd(0, Sending, false)] && p1.queues == start.queues;
    p := Next(p1, Enqueue(0));
    RunSnoc(start, [] + [Submit(0)], p1, Enqueue(0));
    steps := [] + [Submit(0)] + [Enqueue(0)];
    assert p.queues[0].items == [] + [0];
  }

  /** In every new pool, a call of close that finds the workers taken can return
      while a command is still queued. */
  lemma SecondCloseReturnsEarly(start: Pool) returns (steps: seq<Step>, p: Pool)
    requires Fresh(start)
    ensures Run(start, steps, p) && |p.queues| > 0 && p.queues[0].items == [0]
    ensures |p.closers| == 2 && !p.closers[1].took && p.closers[1].returned
  {
    var t;
    steps, t := QueueFirst(start);
    hide Run;
    RunSnoc(start, steps, t, BeginClose);
    var u := Next(t, BeginClose);
    RunSnoc(start, steps + [BeginClose], u, BeginClose);
    var v := Next(u, BeginClose);
    assert v.closers == [Closer(true, 0, 0, false), Closer(false, 0, 0, false)];
    steps, p := SecondFinishes(start, steps + [BeginClose] + [BeginClose], v);
  }

  /** Whether a call of close that has returned guarantees empty queues. */
  ghost predicate Guarantees(start: Pool, took: bool) {
    forall steps, p, k: nat, q: nat ::
      Run(start, steps, p) && Returned(p, k, took) && q < |p.queues| ==> p.queues[q].closed && p.queues[q].items == []
  }

  predicate Returned(p: Pool, k: nat, took: bool) {
    k < |p.closers| && p.closers[k].took == took && p.closers[k].returned
  }

  /** A call that returned guarantees closed and empty queues exactly if it was
      the one that took the workers. */
  lemma DrainedIff(start: Pool, took: bool)
    requires Fresh(start) && |start.workers| >= |start.queues|
    ensures Guarantees(start, took) <==> took
  {
    if took {
      forall steps, p, k: nat, q: nat | Run(start, steps, p) && Returned(p, k, took) && q < |p.queues|
        ensures p.queues[q].closed && p.queues[q].items == []
      {
        Drained(start, steps, p, k);
      }
    } else {
      var steps, p := SecondCloseReturnsEarly(start);
      hide Run;
      assert Returned(p, 1, took);
    }
  }
}
