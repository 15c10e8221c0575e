/** Prefix watchers: a table from key prefixes to one-shot channels, woken in two
    phases under a read lock and then a write lock. Each phase runs alone; any
    number of watches, wakes and dropped futures may run between the two phases
    of a wake. */
module PrefixWatchers {
  import opened Bytes

  type Key = seq<byte>

  /** A watch channel. `signals` lists the keys whose wake sent on it; a receiver
      that has read nothing sees a change exactly when it is not empty. */
  datatype Channel = Channel(prefix: Key, signals: seq<Key>, senderAlive: bool, receivers: nat)

  /** The locked table with every channel ever made; entries name channels. */
  datatype Registry = Registry(entries: map<Key, nat>, chans: seq<Channel>)

  // ----------------------------------------------------- the locked operations

  ghost predicate Wf(r: Registry) {
    && (forall p :: p in r.entries ==>
          && r.entries[p] < |r.chans|
          && r.chans[r.entries[p]].prefix == p
          && r.chans[r.entries[p]].senderAlive)
    && (forall c :: 0 <= c < |r.chans| && r.chans[c].senderAlive ==>
          && r.chans[c].prefix in r.entries && r.entries[r.chans[c].prefix] == c
          && r.chans[c].signals == [] && r.chans[c].receivers >= 1)
    && (forall c :: 0 <= c < |r.chans| && !r.chans[c].senderAlive ==>
          |r.chans[c].signals| == 1 && r.chans[c].prefix <= r.chans[c].signals[0])
  }

  /** Register on a prefix: join its channel or open one. Returns the channel. */
  function Subscribed(r: Registry, prefix: Key): (Registry, nat)
    requires prefix in r.entries ==> r.entries[prefix] < |r.chans|
  {
    if prefix in r.entries then
      var c := r.entries[prefix];
      (r.(chans := r.chans[c := r.chans[c].(receivers := r.chans[c].receivers + 1)]), c)
    else
      var c := |r.chans|;
      (Registry(r.entries[prefix := c], r.chans + [Channel(prefix, [], true, 2)]), c)
  }

  /** Watched prefixes of key shorter than n, shortest first. */
  function TriggeredBelow(r: Registry, key: Key, n: nat): (ps: seq<Key>)
    requires n <= |key| + 1
    ensures forall p :: p in ps <==> p in r.entries && p <= key && |p| < n
  {
    if n == 0 then []
    else
      var shorter := TriggeredBelow(r, key, n - 1);
      assert forall p :: p <= key && |p| == n - 1 ==> p == key[..n - 1];
      if key[..n - 1] in r.entries then shorter + [key[..n - 1]] else shorter
  }

  predicate AllPrefixes(ps: seq<Key>, key: Key) {
    forall i :: 0 <= i < |ps| ==> ps[i] <= key
  }

  function Fired(ch: Channel, key: Key): Channel
    requires ch.receivers > 0
  {
    Channel(ch.prefix, ch.signals + [key], false, ch.receivers - 1)
  }

  /** Wake one prefix: the entry leaves the table, its channel is signalled, then
      its sender and its stored receiver are dropped. */
  function FireOne(r: Registry, key: Key, p: Key): Registry
    requires p in r.entries ==> r.entries[p] < |r.chans| && r.chans[r.entries[p]].receivers > 0
  {
    if p in r.entries then
      var c := r.entries[p];
      Registry(r.entries - {p}, r.chans[c := Fired(r.chans[c], key)])
    else r
  }

  lemma FireOneOk(r: Registry, key: Key, p: Key)
    requires Wf(r) && p <= key
    ensures p in r.entries ==> r.entries[p] < |r.chans| && r.chans[r.entries[p]].receivers > 0
    ensures var r' := FireOne(r, key, p);
            && Wf(r') && |r'.chans| == |r.chans| && r'.entries == r.entries - {p}
            && forall c :: 0 <= c < |r.chans| ==>
                 r'.chans[c] == if r.chans[c].senderAlive && r.chans[c].prefix == p
                                then Fired(r.chans[c], key) else r.chans[c]
  {
    if p in r.entries {
      var c := r.entries[p];
      assert r.chans[c].senderAlive;
    }
  }

  ghost function FireAll(r: Registry, key: Key, ps: seq<Key>): (r': Registry)
    requires Wf(r) && AllPrefixes(ps, key)
    ensures Wf(r') && |r'.chans| == |r.chans|
    decreases |ps|
  {
    if ps == [] then r
    else
      FireOneOk(r, key, ps[0]);
      FireAll(FireOne(r, key, ps[0]), key, ps[1..])
  }

  /** Exactly the open channels on the given prefixes are signalled, once. */
  lemma {:induction false} FireAllEffect(r: Registry, key: Key, ps: seq<Key>)
    requires Wf(r) && AllPrefixes(ps, key)
    ensures forall c :: 0 <= c < |r.chans| ==>
              FireAll(r, key, ps).chans[c] ==
              if r.chans[c].senderAlive && r.chans[c].prefix in ps then Fired(r.chans[c], key) else r.chans[c]
    ensures forall p :: p in FireAll(r, key, ps).entries <==> p in r.entries && p !in ps
    decreases |ps|
  {
    if ps != [] {
      FireOneOk(r, key, ps[0]);
      FireAllEffect(FireOne(r, key, ps[0]), key, ps[1..]);
      assert forall p :: p in ps <==> p == ps[0] || p in ps[1..];
    }
  }

  lemma SubscribedOk(r: Registry, prefix: Key)
    requires Wf(r)
    ensures var (r', c) := Subscribed(r, prefix);
            && Wf(r') && c < |r'.chans| && |r.chans| <= |r'.chans| <= |r.chans| + 1
            && r'.chans[c].prefix == prefix && r'.chans[c].senderAlive
            && (c < |r.chans| ==> r'.chans[c] == r.chans[c].(receivers := r.chans[c].receivers + 1))
            && (c == |r.chans| ==> r'.chans[c] == Channel(prefix, [], true, 2))
            && (forall d :: 0 <= d < |r.chans| && d != c ==> r'.chans[d] == r.chans[d])
            && (forall d :: 0 <= d < |r.chans| && d == c ==> r.chans[d].senderAlive)
  {
    var (r', c) := Subscribed(r, prefix);
    if prefix !in r.entries {
      forall d | 0 <= d < |r'.chans| && r'.chans[d].senderAlive
        ensures r'.chans[d].prefix in r'.entries && r'.entries[r'.chans[d].prefix] == d
      {
        if d < |r.chans| {
          assert r.chans[d].prefix in r.entries;
        }
      }
    }
  }

  /** The table as the object that threads share. */
  class Watchers {
    var entries: map<Key, nat>
    var chans: seq<Channel>

    ghost function Reg(): Registry
      reads this
    {
      Registry(entries, chans)
    }

    constructor ()
      ensures Reg() == Registry(map[], []) && Wf(Reg())
    {
      entries, chans := map[], [];
    }

    /** Under the write lock: find or create the channel of a prefix. */
    method Watch(prefix: Key) returns (c: nat)
      requires Wf(Reg())
      modifies this
      ensures (Reg(), c) == Subscribed(old(Reg()), prefix)
      ensures Wf(Reg())
    {
      SubscribedOk(Reg(), prefix);
      if prefix in entries {
        c := entries[prefix];
        chans := chans[c := chans[c].(receivers := chans[c].receivers + 1)];
      } else {
        c := |chans|;
        entries := entries[prefix := c];
        chans := chans + [Channel(prefix, [], true, 2)];
      }
    }

    /** Under the read lock: the watched prefixes of a key. */
    method Scan(key: Key) returns (triggered: seq<Key>)
      ensures triggered == TriggeredBelow(Reg(), key, |key| + 1)
    {
      triggered := [];
      var length := 0;
      while length <= |key|
        invariant 0 <= length <= |key| + 1
        invariant triggered == TriggeredBelow(Reg(), key, length)
      {
        if key[..length] in entries {
          triggered := triggered + [key[..length]];
        }
        length := length + 1;
      }
    }

    /** Under the write lock: signal and forget the prefixes still registered.
        Every send finds a receiver. */
    method Fire(key: Key, triggered: seq<Key>)
      requires Wf(Reg()) && AllPrefixes(triggered, key)
      modifies this
      ensures Reg() == FireAll(old(Reg()), key, triggered)
    {
      var i := 0;
      assert triggered[0..] == triggered;
      while i < |triggered|
        invariant 0 <= i <= |triggered|
        invariant Wf(Reg())
        invariant FireAll(Reg(), key, triggered[i..]) == FireAll(old(Reg()), key, triggered)
      {
        var p := triggered[i];
        assert triggered[i..][0] == p && triggered[i..][1..] == triggered[i + 1..];
        FireOneOk(Reg(), key, p);
        if p in entries {
          var c := entries[p];
          entries := entries - {p};
          assert chans[c].receivers > 0; // the send cannot fail
          chans := chans[c := Fired(chans[c], key)];
        }
        i := i + 1;
      }
      assert triggered[i..] == [];
    }
  }

  // ---------------------------------------------------------- all interleavings

  /** A future returned by `watch`: its channel, and whether it still exists. */
  datatype Sub = Sub(chan: nat, live: bool)

  /** A call of `wake`. `before` counts the futures handed out before it began. */
  datatype Wake = Wake(key: Key, before: nat, triggered: seq<Key>, returned: bool)

  datatype System = System(reg: Registry, subs: seq<Sub>, wakes: seq<Wake>)

  datatype Step =
    | DoWatch(prefix: Key)
    | BeginWake(key: Key)
    | EndWake(w: nat)
    | DropFuture(u: nat)

  const INIT := System(Registry(map[], []), [], [])

  ghost predicate Enabled(s: System, step: Step) {
    match step
    case DoWatch(_) => true
    case BeginWake(_) => true
    case EndWake(w) => w < |s.wakes| && !s.wakes[w].returned
    case DropFuture(u) => u < |s.subs| && s.subs[u].live
  }

  ghost function Next(s: System, step: Step): System
    requires Inv(s) && Enabled(s, step)
  {
    match step
    case DoWatch(prefix) =>
      var (reg, c) := Subscribed(s.reg, prefix);
      s.(reg := reg, subs := s.subs + [Sub(c, true)])
    case BeginWake(key) =>
      var ps := TriggeredBelow(s.reg, key, |key| + 1);
      s.(wakes := s.wakes + [Wake(key, |s.subs|, ps, ps == [])])
    case EndWake(w) =>
      s.(reg := FireAll(s.reg, s.wakes[w].key, s.wakes[w].triggered),
         wakes := s.wakes[w := s.wakes[w].(returned := true)])
    case DropFuture(u) =>
      var c := s.subs[u].chan;
      LivePositive(s.subs, u, c);
      s.(subs := s.subs[u := Sub(c, false)],
         reg := s.reg.(chans := s.reg.chans[c := s.reg.chans[c].(receivers := s.reg.chans[c].receivers - 1)]))
  }

  /** Live futures on a channel. */
  ghost function Live(subs: seq<Sub>, c: nat): nat {
    if subs == [] then 0
    else Live(subs[..|subs| - 1], c) + (if subs[|subs| - 1] == Sub(c, true) then 1 else 0)
  }

  lemma {:induction false} LivePositive(subs: seq<Sub>, u: nat, c: nat)
    requires u < |subs| && subs[u] == Sub(c, true)
    ensures Live(subs, c) >= 1
    decreases |subs|
  {
    if u < |subs| - 1 {
      LivePositive(subs[..|subs| - 1], u, c);
    }
  }

  lemma {:induction false} LiveDrop(subs: seq<Sub>, u: nat, c: nat, d: nat)
    requires u < |subs| && subs[u] == Sub(c, true)
    ensures Live(subs[u := Sub(c, false)], d) == Live(subs, d) - (if c == d then 1 else 0)
    decreases |subs|
  {
    var n := |subs| - 1;
    var subs' := subs[u := Sub(c, false)];
    if u < n {
      LiveDrop(subs[..n], u, c, d);
      assert subs'[..n] == subs[..n][u := Sub(c, false)];
    } else {
      assert subs'[..n] == subs[..n];
    }
  }

  lemma {:induction false} LiveNone(subs: seq<Sub>, c: nat)
    requires forall u :: 0 <= u < |subs| ==> subs[u].chan != c
    ensures Live(subs, c) == 0
  {
    if subs != [] {
      LiveNone(subs[..|subs| - 1], c);
    }
  }

  /** The future's prefix was told of a change. */
  predicate Signalled(s: System, u: nat)
    requires u < |s.subs| && s.subs[u].chan < |s.reg.chans|
  {
    s.reg.chans[s.subs[u].chan].signals != []
  }

  function PrefixOf(s: System, u: nat): Key
    requires u < |s.subs| && s.subs[u].chan < |s.reg.chans|
  {
    s.reg.chans[s.subs[u].chan].prefix
  }

  ghost predicate Inv(s: System) {
    && Wf(s.reg)
    && (forall u :: 0 <= u < |s.subs| ==> s.subs[u].chan < |s.reg.chans|)
    // a channel is held by its table entry and by its live futures
    && (forall c :: 0 <= c < |s.reg.chans| ==>
          s.reg.chans[c].receivers == (if s.reg.chans[c].senderAlive then 1 else 0) + Live(s.subs, c))
    && (forall w :: 0 <= w < |s.wakes| ==>
          s.wakes[w].before <= |s.subs| && AllPrefixes(s.wakes[w].triggered, s.wakes[w].key))
    && (forall w, u :: 0 <= w < |s.wakes| && 0 <= u < s.wakes[w].before ==> Attended(s, w, u))
  }

  /** A future that a wake must reach has been signalled, or is still on its list. */
  ghost predicate Attended(s: System, w: nat, u: nat)
    requires w < |s.wakes| && u < |s.subs| && s.subs[u].chan < |s.reg.chans|
  {
    PrefixOf(s, u) <= s.wakes[w].key ==>
      Signalled(s, u) || (!s.wakes[w].returned && PrefixOf(s, u) in s.wakes[w].triggered)
  }

  lemma WatchKeeps(s: System, prefix: Key)
    requires Inv(s)
    ensures Inv(Next(s, DoWatch(prefix)))
  {
    SubscribedOk(s.reg, prefix);
    hide Wf, Subscribed;
    var s' := Next(s, DoWatch(prefix));
    var (reg, c) := Subscribed(s.reg, prefix);
    assert s'.subs[..|s.subs|] == s.subs;
    if c == |s.reg.chans| {
      LiveNone(s.subs, c);
    }
    forall w, u | 0 <= w < |s'.wakes| && 0 <= u < s'.wakes[w].before ensures Attended(s', w, u) {
      assert Attended(s, w, u);
    }
  }

  lemma BeginKeeps(s: System, key: Key)
    requires Inv(s)
    ensures Inv(Next(s, BeginWake(key)))
  {
    var s' := Next(s, BeginWake(key));
    var ps := TriggeredBelow(s.reg, key, |key| + 1);
    assert AllPrefixes(ps, key) by {
      assert forall i :: 0 <= i < |ps| ==> ps[i] in ps;
    }
    forall w, u | 0 <= w < |s'.wakes| && 0 <= u < s'.wakes[w].before ensures Attended(s', w, u) {
      if w < |s.wakes| {
        assert Attended(s, w, u);
      }
    }
  }

  lemma EndKeeps(s: System, w: nat)
    requires Inv(s) && Enabled(s, EndWake(w))
    ensures Inv(Next(s, EndWake(w)))
  {
    FireAllEffect(s.reg, s.wakes[w].key, s.wakes[w].triggered);
    hide Wf, FireAll;
    var s' := Next(s, EndWake(w));
    forall v, u | 0 <= v < |s'.wakes| && 0 <= u < s'.wakes[v].before ensures Attended(s', v, u) {
      assert Attended(s, v, u);
      OpenUnlessSignalled(s.reg, s.subs[u].chan);
    }
  }

  lemma OpenUnlessSignalled(r: Registry, c: nat)
    requires Wf(r) && c < |r.chans|
    ensures r.chans[c].signals == [] <==> r.chans[c].senderAlive
  {}

  lemma DropKeeps(s: System, u: nat)
    requires Inv(s) && Enabled(s, DropFuture(u))
    ensures Inv(Next(s, DropFuture(u)))
  {
    var s', c := Next(s, DropFuture(u)), s.subs[u].chan;
    LivePositive(s.subs, u, c);
    forall d: nat | d < |s.reg.chans| ensures Live(s'.subs, d) == Live(s.subs, d) - (if c == d then 1 else 0) {
      LiveDrop(s.subs, u, c, d);
    }
    forall w, v | 0 <= w < |s'.wakes| && 0 <= v < s'.wakes[w].before ensures Attended(s', w, v) {
      assert Attended(s, w, v);
    }
  }

  lemma StepKeeps(s: System, step: Step)
    requires Inv(s) && Enabled(s, step)
    ensures Inv(Next(s, step))
  {
    match step
    case DoWatch(prefix) => WatchKeeps(s, prefix);
    case BeginWake(key) => BeginKeeps(s, key);
    case EndWake(w) => EndKeeps(s, w);
    case DropFuture(u) => DropKeeps(s, u);
  }

  /** States some interleaving leads to. */
  ghost predicate Run(steps: seq<Step>, s: System)
    decreases |steps|
  {
    if steps == [] then s == INIT
    else
      exists t: System :: Run(steps[..|steps| - 1], t) && Inv(t) && Enabled(t, steps[|steps| - 1])
                          && s == Next(t, steps[|steps| - 1])
  }

  /** No run gets stuck on the table's own bookkeeping: an enabled step after a
      run is a run, so the invariant above restricts no interleaving. */
  lemma RunExtends(steps: seq<Step>, s: System, step: Step)
    requires Run(steps, s) && Enabled(s, step)
    ensures Inv(s) && Run(steps + [step], Next(s, step))
  {
    RunInv(steps, s);
    assert (steps + [step])[..|steps|] == steps;
  }

  lemma RunInv(steps: seq<Step>, s: System)
    requires Run(steps, s)
    ensures Inv(s)
  {
    if steps != [] {
      var t :| Run(steps[..|steps| - 1], t) && Inv(t) && Enabled(t, steps[|steps| - 1])
               && s == Next(t, steps[|steps| - 1]);
      StepKeeps(t, steps[|steps| - 1]);
    }
  }

  /** No lost wake-up: in every interleaving, when a wake has returned, every
      future handed out before it began on a prefix of its key is signalled. */
  lemma NoLostWakeup(steps: seq<Step>, s: System, w: nat, u: nat)
    requires Run(steps, s)
    requires w < |s.wakes| && s.wakes[w].returned && u < s.wakes[w].before
    ensures u < |s.subs| && s.subs[u].chan < |s.reg.chans|
    ensures PrefixOf(s, u) <= s.wakes[w].key ==> Signalled(s, u)
  {
    RunInv(steps, s);
    assert Attended(s, w, u);
  }

  /** Only keys that extend the prefix signal a future, and a closed channel was
      signalled first, so awaiting it never fails. */
  lemma SignalsAreJustified(steps: seq<Step>, s: System, u: nat)
    requires Run(steps, s) && u < |s.subs|
    ensures s.subs[u].chan < |s.reg.chans|
    ensures forall k :: k in s.reg.chans[s.subs[u].chan].signals ==> PrefixOf(s, u) <= k
    ensures !s.reg.chans[s.subs[u].chan].senderAlive ==> Signalled(s, u)
    ensures s.subs[u].live ==> s.reg.chans[s.subs[u].chan].receivers >= 1
  {
    RunInv(steps, s);
    var c := s.subs[u].chan;
    if s.reg.chans[c].senderAlive {
      assert s.reg.chans[c].signals == [];
    } else {
      assert s.reg.chans[c].signals == [s.reg.chans[c].signals[0]];
    }
    if s.subs[u].live {
      LivePositive(s.subs, u, c);
    }
  }
}
