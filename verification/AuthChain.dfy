/** The admin command that draws an event's auth chain as a graph: a depth-first
    walk with an explicit stack over a fixed snapshot of the event store. */
module AuthChain {
  import opened Common

  type EventId = string

  /** A locally held event; `name` is its type and state key. */
  datatype Pdu = Pdu(auth: seq<EventId>, depth: nat, ts: nat, name: string)

  datatype Status = Rejected | SoftFailed | Normal

  datatype Server = Server(store: map<EventId, Pdu>, rejected: set<EventId>, softFailed: set<EventId>)

  /** A line of the drawing: a node, or an edge between two node numbers. */
  datatype Line =
    | Node(number: nat, id: EventId, name: string, status: Status, missing: bool)
    | Edge(from: nat, to: nat)

  datatype Reply = NotFound | Graph(lines: seq<Line>)

  function StatusOf(g: Server, id: EventId): Status {
    if id in g.rejected then Rejected else if id in g.softFailed then SoftFailed else Normal
  }

  // ------------------------------------------------------------ specification

  /** A walk along auth references through held events. */
  predicate IsChain(g: Server, path: seq<EventId>) {
    && path != []
    && (forall i :: 0 <= i < |path| ==> path[i] in g.store)
    && (forall i :: 0 <= i < |path| - 1 ==> path[i + 1] in g.store[path[i]].auth)
  }

  ghost predicate Reaches(g: Server, root: EventId, e: EventId) {
    exists path :: IsChain(g, path) && path[0] == root && path[|path| - 1] == e
  }

  lemma ReachesNext(g: Server, root: EventId, e: EventId, a: EventId)
    requires Reaches(g, root, e) && e in g.store && a in g.store[e].auth && a in g.store
    ensures Reaches(g, root, a)
  {
    var path :| IsChain(g, path) && path[0] == root && path[|path| - 1] == e;
    assert IsChain(g, path + [a]);
  }

  /** The events drawn: the reachable held ones and everything they refer to. */
  ghost predicate Mentioned(g: Server, root: EventId, e: EventId) {
    || Reaches(g, root, e)
    || exists p :: Reaches(g, root, p) && p in g.store && e in g.store[p].auth
  }

  /** How often an event is drawn. */
  function NodeCount(lines: seq<Line>, e: EventId): nat {
    if lines == [] then 0
    else
      var n := |lines| - 1;
      NodeCount(lines[..n], e) + (if lines[n].Node? && lines[n].id == e then 1 else 0)
  }

  /** How often an edge is drawn. */
  function EdgeCount(lines: seq<Line>, i: nat, j: nat): nat {
    if lines == [] then 0
    else
      var n := |lines| - 1;
      EdgeCount(lines[..n], i, j) + (if lines[n] == Edge(i, j) then 1 else 0)
  }

  lemma Appended(lines: seq<Line>, l: Line)
    ensures forall e :: NodeCount(lines + [l], e) == NodeCount(lines, e) + (if l.Node? && l.id == e then 1 else 0)
    ensures forall i: nat, j: nat ::
              EdgeCount(lines + [l], i, j) == EdgeCount(lines, i, j) + (if l == Edge(i, j) then 1 else 0)
  {
    assert (lines + [l])[..|lines|] == lines;
  }

  // -------------------------------------------------------------- sorted children

  datatype Child = Child(number: nat, id: EventId, depth: nat, ts: nat, first: bool, held: bool)

  predicate StrLess(a: string, b: string) {
    b != [] && (a == [] || a[0] < b[0] || (a[0] == b[0] && StrLess(a[1..], b[1..])))
  }

  lemma {:induction false} StrTotal(a: string, b: string)
    ensures StrLess(a, b) || a == b || StrLess(b, a)
  {
    if a != [] && b != [] && a[0] == b[0] {
      StrTotal(a[1..], b[1..]);
      assert a == [a[0]] + a[1..] && b == [b[0]] + b[1..];
    }
  }

  lemma {:induction false} StrTransitive(a: string, b: string, c: string)
    requires StrLess(a, b) && StrLess(b, c)
    ensures StrLess(a, c)
  {
    if a != [] && a[0] == b[0] == c[0] {
      StrTransitive(a[1..], b[1..], c[1..]);
    }
  }

  /** Depth first, then timestamp, then id. */
  predicate Before(a: Child, b: Child) {
    || a.depth < b.depth
    || (a.depth == b.depth && a.ts < b.ts)
    || (a.depth == b.depth && a.ts == b.ts && StrLess(a.id, b.id))
  }

  lemma NotAfterTransitive(a: Child, b: Child, c: Child)
    requires !Before(b, a) && !Before(c, b)
    ensures !Before(c, a)
  {
    StrTotal(a.id, b.id);
    StrTotal(b.id, c.id);
    if StrLess(a.id, b.id) && StrLess(b.id, c.id) {
      StrTransitive(a.id, b.id, c.id);
    }
    if StrLess(c.id, a.id) && StrLess(a.id, b.id) {
      StrTransitive(c.id, a.id, b.id);
    }
    if StrLess(c.id, a.id) && StrLess(b.id, c.id) {
      StrTransitive(b.id, c.id, a.id);
    }
  }

  predicate InOrder(cs: seq<Child>) {
    forall i, j :: 0 <= i < j < |cs| ==> !Before(cs[j], cs[i])
  }

  function Insert(c: Child, cs: seq<Child>): seq<Child> {
    if cs == [] || !Before(cs[0], c) then [c] + cs else [cs[0]] + Insert(c, cs[1..])
  }

  /** The children to follow, in the order in which they go on the stack: the
      first of the list ends up on top. */
  function Follow(cs: seq<Child>): seq<EventId> {
    if cs == [] then []
    else Follow(cs[1..]) + (if cs[0].first && cs[0].held then [cs[0].id] else [])
  }

  /** Stable sort. */
  function Sort(cs: seq<Child>): seq<Child> {
    if cs == [] then [] else Insert(cs[0], Sort(cs[1..]))
  }

  lemma {:induction false} InsertKeeps(c: Child, cs: seq<Child>)
    ensures multiset(Insert(c, cs)) == multiset(cs) + multiset{c}
    decreases |cs|
  {
    hide Before;
    if cs != [] && Before(cs[0], c) {
      InsertKeeps(c, cs[1..]);
      assert cs == [cs[0]] + cs[1..];
    }
  }

  /** A child that the first one does not come before may go in front. */
  lemma InOrderFront(c: Child, cs: seq<Child>)
    requires InOrder(cs) && (cs != [] ==> !Before(cs[0], c))
    ensures InOrder([c] + cs)
  {
    hide Before;
    forall j | 0 <= j < |cs| ensures !Before(cs[j], c) {
      if j > 0 {
        NotAfterTransitive(c, cs[0], cs[j]);
      }
    }
  }

  lemma {:induction false} InsertOk(c: Child, cs: seq<Child>)
    requires InOrder(cs)
    ensures InOrder(Insert(c, cs)) && multiset(Insert(c, cs)) == multiset(cs) + multiset{c}
    decreases |cs|
  {
    hide Before;
    InsertKeeps(c, cs);
    if cs == [] || !Before(cs[0], c) {
      InOrderFront(c, cs);
    } else {
      InsertOk(c, cs[1..]);
      BeforeAsymmetric(cs[0], c);
      InOrderFront(cs[0], Insert(c, cs[1..]));
    }
  }

  lemma BeforeAsymmetric(a: Child, b: Child)
    requires Before(a, b)
    ensures !Before(b, a)
  {
    if StrLess(a.id, b.id) && StrLess(b.id, a.id) {
      StrTransitive(a.id, b.id, a.id);
      StrIrreflexive(a.id);
    }
  }

  lemma {:induction false} StrIrreflexive(a: string)
    ensures !StrLess(a, a)
  {
    if a != [] {
      StrIrreflexive(a[1..]);
    }
  }

  /** The children are only rearranged, lowest depth first. */
  lemma {:induction false} SortOk(cs: seq<Child>)
    ensures InOrder(Sort(cs)) && multiset(Sort(cs)) == multiset(cs)
    decreases |cs|
  {
    if cs != [] {
      SortOk(cs[1..]);
      InsertOk(cs[0], Sort(cs[1..]));
      assert cs == [cs[0]] + cs[1..];
    }
  }

  /** What the order means: lowest depth first, then the oldest, then the id. */
  lemma SortMeans(cs: seq<Child>, i: nat, j: nat)
    requires i < j < |Sort(cs)|
    ensures var a, b := Sort(cs)[i], Sort(cs)[j];
            && a.depth <= b.depth && (a.depth == b.depth ==> a.ts <= b.ts)
            && (a.depth == b.depth && a.ts == b.ts ==> !StrLess(b.id, a.id))
  {
    SortOk(cs);
    assert !Before(Sort(cs)[j], Sort(cs)[i]);
  }

  /** Whether a child is to be followed. */
  predicate ToFollow(c: Child) {
    c.first && c.held
  }

  lemma {:induction false} FollowsFirst(cs: seq<Child>) returns (i: nat)
    requires InOrder(cs) && Follow(cs) != []
    ensures i < |cs| && ToFollow(cs[i]) && cs[i].id == Follow(cs)[|Follow(cs)| - 1]
    ensures forall j :: 0 <= j < |cs| && ToFollow(cs[j]) ==> !Before(cs[j], cs[i])
    decreases |cs|
  {
    hide Before;
    var tail := cs[1..];
    if ToFollow(cs[0]) {
      BeforeIrreflexive(cs[0]);
      i := 0;
    } else {
      var k := FollowsFirst(tail);
      i := k + 1;
      forall j | 0 <= j < |cs| && ToFollow(cs[j])
        ensures !Before(cs[j], cs[i])
      {
        assert cs[j] == tail[j - 1];
      }
    }
  }

  lemma BeforeIrreflexive(c: Child)
    ensures !Before(c, c)
  {
    StrIrreflexive(c.id);
  }

  /** Of the children that go on the stack, one of the lowest depth is on top. */
  lemma LowestOnTop(cs: seq<Child>) returns (c: Child)
    requires Follow(Sort(cs)) != []
    ensures c in cs && ToFollow(c) && c.id == Follow(Sort(cs))[|Follow(Sort(cs))| - 1]
    ensures forall d :: d in cs && ToFollow(d) ==> c.depth <= d.depth
  {
    SortOk(cs);
    var sorted := Sort(cs);
    hide Sort, Follow;
    var i := FollowsFirst(sorted);
    c := sorted[i];
    assert c in multiset(sorted);
    forall d | d in cs && ToFollow(d)
      ensures c.depth <= d.depth
    {
      assert d in multiset(cs) && d in multiset(sorted);
      var j :| 0 <= j < |sorted| && sorted[j] == d;
    }
  }

  /** How often an event is among the children seen for the first time. */
  function Fresh(cs: seq<Child>, e: EventId): nat {
    if cs == [] then 0
    else (if cs[0].first && cs[0].id == e then 1 else 0) + Fresh(cs[1..], e)
  }

  lemma {:induction false} FreshInsert(c: Child, cs: seq<Child>, e: EventId)
    ensures Fresh(Insert(c, cs), e) == Fresh([c] + cs, e)
    decreases |cs|
  {
    assert ([c] + cs)[1..] == cs;
    if cs != [] && Before(cs[0], c) {
      FreshInsert(c, cs[1..], e);
      assert ([c] + cs[1..])[1..] == cs[1..];
      assert ([cs[0]] + Insert(c, cs[1..]))[1..] == Insert(c, cs[1..]);
    }
  }

  lemma {:induction false} FreshSort(cs: seq<Child>, e: EventId)
    ensures Fresh(Sort(cs), e) == Fresh(cs, e)
    decreases |cs|
  {
    if cs != [] {
      FreshSort(cs[1..], e);
      FreshInsert(cs[0], Sort(cs[1..]), e);
      assert ([cs[0]] + Sort(cs[1..]))[1..] == Sort(cs[1..]);
    }
  }

  lemma {:induction false} FreshSnoc(cs: seq<Child>, c: Child, e: EventId)
    ensures Fresh(cs + [c], e) == Fresh(cs, e) + (if c.first && c.id == e then 1 else 0)
    decreases |cs|
  {
    if cs == [] {
      assert cs + [c] == [c];
    } else {
      assert (cs + [c])[1..] == cs[1..] + [c];
      FreshSnoc(cs[1..], c, e);
    }
  }

  // ------------------------------------------------------------------ the walk

  /** The command's local variables. `names` lists the numbered events in the
      order in which they got their numbers. */
  datatype Walk = Walk(
    numbers: map<EventId, nat>, next: nat, names: seq<EventId>,
    cached: set<EventId>, scheduled: set<EventId>, visited: set<EventId>,
    stack: seq<EventId>, lines: seq<Line>)

  /** Look up an event's node number, giving it the next free one if needed. */
  function Numbered(w: Walk, id: EventId): (w': Walk)
    ensures id in w'.numbers
  {
    if id in w.numbers then w
    else w.(numbers := w.numbers[id := w.next], next := w.next + 1, names := w.names + [id])
  }

  function NodeLine(g: Server, numbers: map<EventId, nat>, id: EventId): Line
    requires id in numbers
  {
    if id in g.store then Node(numbers[id], id, g.store[id].name, StatusOf(g, id), false)
    else Node(numbers[id], id, "", StatusOf(g, id), true)
  }

  /** Node numbers are given out one by one, each to one event. */
  ghost predicate Numbering(w: Walk) {
    && |w.names| == w.next
    && (forall a :: a in w.numbers ==> w.numbers[a] < w.next && w.names[w.numbers[a]] == a)
    && (forall i :: 0 <= i < w.next ==> w.names[i] in w.numbers && w.numbers[w.names[i]] == i)
  }

  /** The references drawn so far from an event: all of them once it was
      visited, those in `part` while it is being expanded. */
  ghost function Drawn(g: Server, w: Walk, cur: EventId, part: seq<EventId>, x: EventId): seq<EventId> {
    if x !in w.visited || x !in g.store then [] else if x == cur then part else g.store[x].auth
  }

  ghost predicate EdgesOk(g: Server, w: Walk, cur: EventId, part: seq<EventId>) {
    && (forall x, y :: x in w.numbers && y in w.numbers ==>
          EdgeCount(w.lines, w.numbers[x], w.numbers[y]) == multiset(Drawn(g, w, cur, part, x))[y])
    && (forall i: nat, j: nat :: i >= w.next || j >= w.next ==> EdgeCount(w.lines, i, j) == 0)
  }

  /** Every node line is the one its event asks for. */
  ghost predicate NodesOk(g: Server, w: Walk) {
    forall i :: 0 <= i < |w.lines| && w.lines[i].Node? ==>
      w.lines[i].id in w.numbers && w.lines[i] == NodeLine(g, w.numbers, w.lines[i].id)
  }

  /** Which events a walk with these sets has on its stack and in its drawing. */
  ghost predicate Counts(g: Server, w: Walk) {
    && (forall e :: multiset(w.stack)[e] == if e in w.scheduled && e in g.store && e !in w.visited then 1 else 0)
    && (forall e :: NodeCount(w.lines, e) == if e in w.visited || (e in w.scheduled && e !in g.store) then 1 else 0)
    && (forall e :: e in w.cached <==> e in w.scheduled && e in g.store)
  }

  ghost predicate Traced(g: Server, root: EventId, w: Walk) {
    && root in g.store && root in w.scheduled
    && w.numbers.Keys <= w.scheduled
    && (forall a :: a in w.scheduled && a != root ==> a in w.numbers)
    && (forall e :: e in w.visited ==> e in w.numbers && e in g.store && Reaches(g, root, e))
    && (forall a :: a in w.scheduled ==> Mentioned(g, root, a))
  }

  /** Drawn references are numbered, hence scheduled. */
  ghost predicate Closed(g: Server, w: Walk, cur: EventId, part: seq<EventId>) {
    forall p, a :: p in w.visited && a in Drawn(g, w, cur, part, p) ==> a in w.numbers
  }

  /** The state in which `cur` is being expanded and `part` of its references are
      drawn. With all of them drawn it is the state between two rounds. */
  ghost predicate Inv(g: Server, root: EventId, w: Walk, cur: EventId, part: seq<EventId>) {
    && Numbering(w) && Traced(g, root, w) && Closed(g, w, cur, part)
    && NodesOk(g, w) && EdgesOk(g, w, cur, part)
  }

  lemma NumberedOk(w: Walk, id: EventId)
    requires Numbering(w)
    ensures Numbering(Numbered(w, id))
  {}

  lemma NumberedNodes(g: Server, w: Walk, id: EventId)
    requires NodesOk(g, w)
    ensures NodesOk(g, Numbered(w, id))
  {}

  /** A new number has no edges yet, on either end. */
  lemma NumberedEdges(g: Server, w: Walk, cur: EventId, part: seq<EventId>, id: EventId)
    requires Numbering(w) && EdgesOk(g, w, cur, part) && Closed(g, w, cur, part)
    requires id !in w.visited || id in w.numbers
    ensures EdgesOk(g, Numbered(w, id), cur, part)
  {
    var w' := Numbered(w, id);
    if id !in w.numbers {
      forall x, y | x in w'.numbers && y in w'.numbers
        ensures EdgeCount(w'.lines, w'.numbers[x], w'.numbers[y]) == multiset(Drawn(g, w', cur, part, x))[y]
      {
        if x == id {
          assert Drawn(g, w', cur, part, x) == [];
        } else if y == id {
          assert w.numbers[x] == w'.numbers[x];
          assert Drawn(g, w', cur, part, x) == Drawn(g, w, cur, part, x);
          assert y !in Drawn(g, w, cur, part, x);
        }
      }
    }
  }

  // ---------------------------------------------------- taking the next event

  /** Pop an event: mark it, number it, draw it. */
  function Taken(g: Server, w: Walk): (w': Walk)
    requires w.stack != []
  {
    var n := |w.stack| - 1;
    var cur := w.stack[n];
    var w1 := Numbered(w.(stack := w.stack[..n], visited := w.visited + {cur}), cur);
    w1.(lines := w1.lines + [NodeLine(g, w1.numbers, cur)])
  }

  lemma PopCounts(g: Server, w: Walk)
    requires Counts(g, w) && w.stack != []
    ensures var cur := w.stack[|w.stack| - 1];
            cur in w.scheduled && cur in g.store && cur !in w.visited
    ensures Counts(g, Taken(g, w))
  {
    var n := |w.stack| - 1;
    var cur := w.stack[n];
    assert cur in multiset(w.stack);
    assert w.stack == w.stack[..n] + [cur];
    var w1 := Numbered(w.(stack := w.stack[..n], visited := w.visited + {cur}), cur);
    Appended(w.lines, NodeLine(g, w1.numbers, cur));
  }

  /** A mentioned event that is held is reachable. */
  lemma MentionedHeld(g: Server, root: EventId, e: EventId)
    requires Mentioned(g, root, e) && e in g.store
    ensures Reaches(g, root, e)
  {
    if !Reaches(g, root, e) {
      var p :| Reaches(g, root, p) && p in g.store && e in g.store[p].auth;
      ReachesNext(g, root, p, e);
    }
  }

  /** Appending a node line leaves the edges alone, and the other way round. */
  lemma EdgesAfterNode(g: Server, w: Walk, cur: EventId, part: seq<EventId>, l: Line)
    requires EdgesOk(g, w, cur, part) && l.Node?
    ensures EdgesOk(g, w.(lines := w.lines + [l]), cur, part)
  {
    Appended(w.lines, l);
    var w' := w.(lines := w.lines + [l]);
    forall x, y | x in w'.numbers && y in w'.numbers
      ensures EdgeCount(w'.lines, w'.numbers[x], w'.numbers[y]) == multiset(Drawn(g, w', cur, part, x))[y]
    {
      assert Drawn(g, w', cur, part, x) == Drawn(g, w, cur, part, x);
    }
  }

  /** Starting on a new event, with none of its references drawn, changes
      nothing about the edges. */
  lemma EdgesAtStart(g: Server, w: Walk, last: EventId, w': Walk, cur: EventId)
    requires last in g.store && EdgesOk(g, w, last, g.store[last].auth) && Closed(g, w, last, g.store[last].auth)
    requires cur !in w.visited
    requires w' == w.(stack := w'.stack, visited := w.visited + {cur})
    ensures EdgesOk(g, w', cur, []) && Closed(g, w', cur, [])
  {
    forall x ensures Drawn(g, w', cur, [], x) == Drawn(g, w, last, g.store[last].auth, x) {
    }
  }

  lemma TakeTraced(g: Server, root: EventId, w: Walk)
    requires Traced(g, root, w) && w.stack != []
    requires var cur := w.stack[|w.stack| - 1]; cur in w.scheduled && cur in g.store
    ensures Traced(g, root, Taken(g, w))
  {
    MentionedHeld(g, root, w.stack[|w.stack| - 1]);
    hide Reaches, Mentioned;
  }

  lemma TakeNodes(g: Server, w: Walk)
    requires Numbering(w) && NodesOk(g, w) && w.stack != []
    ensures Numbering(Taken(g, w)) && NodesOk(g, Taken(g, w))
  {
    var cur := w.stack[|w.stack| - 1];
    var w1 := Numbered(w, cur);
    NumberedOk(w, cur);
    NumberedNodes(g, w, cur);
    NumberingFrame(w1, Taken(g, w));
    hide Numbering;
  }

  lemma TakeInv(g: Server, root: EventId, w: Walk, last: EventId)
    requires last in g.store && Inv(g, root, w, last, g.store[last].auth)
    requires w.stack != []
    requires var cur := w.stack[|w.stack| - 1]; cur in w.scheduled && cur in g.store && cur !in w.visited
    ensures var cur := w.stack[|w.stack| - 1];
            Inv(g, root, Taken(g, w), cur, []) && cur in Taken(g, w).visited
  {
    hide EdgesOk, Traced, Numbering, NodesOk;
    var n := |w.stack| - 1;
    var cur := w.stack[n];
    var w2 := Numbered(w, cur).(stack := w.stack[..n], visited := w.visited + {cur});
    var w3 := Taken(g, w);
    assert w3 == w2.(lines := w2.lines + [NodeLine(g, w2.numbers, cur)]);
    TakeTraced(g, root, w);
    TakeNodes(g, w);
    TakeEdges(g, root, w, last, cur, w2);
    EdgesAfterNode(g, w2, cur, [], NodeLine(g, w2.numbers, cur));
    assert Closed(g, w3, cur, []) by {
      assert forall x :: Drawn(g, w3, cur, [], x) == Drawn(g, w2, cur, [], x);
    }
  }

  lemma TakeEdges(g: Server, root: EventId, w: Walk, last: EventId, cur: EventId, w2: Walk)
    requires last in g.store && Inv(g, root, w, last, g.store[last].auth) && cur !in w.visited
    requires w2 == Numbered(w, cur).(stack := w2.stack, visited := w.visited + {cur})
    ensures EdgesOk(g, w2, cur, []) && Closed(g, w2, cur, [])
  {
    hide Reaches, Mentioned, EdgeCount, NodesOk, Traced;
    NumberedEdges(g, w, last, g.store[last].auth, cur);
    var w1 := Numbered(w, cur);
    assert Closed(g, w1, last, g.store[last].auth) by {
      assert forall x :: Drawn(g, w1, last, g.store[last].auth, x) == Drawn(g, w, last, g.store[last].auth, x);
    }
    hide Numbering;
    EdgesAtStart(g, w1, last, w2, cur);
  }

  // ---------------------------------------------------- drawing the references

  /** One auth reference of the current event: draw its edge, schedule it if it
      is new, and look it up unless it is known. */
  function Referred(g: Server, w: Walk, cur: EventId, a: EventId): (r: (Walk, Child))
    requires cur in w.numbers
  {
    var w1 := Numbered(w, a);
    var first := a !in w.scheduled;
    var held := a in w.cached || (first && a in g.store);
    var (depth, ts) := if held && a in g.store then (g.store[a].depth, g.store[a].ts) else (UINT_MAX, UINT_MAX);
    (w1.(lines := w1.lines + [Edge(w1.numbers[cur], w1.numbers[a])],
         scheduled := w1.scheduled + {a},
         cached := if held then w1.cached + {a} else w1.cached),
     Child(w1.numbers[a], a, depth, ts, first, held))
  }

  lemma EdgesAfterEdge(g: Server, w: Walk, cur: EventId, part: seq<EventId>, a: EventId)
    requires Numbering(w) && EdgesOk(g, w, cur, part)
    requires cur in w.numbers && a in w.numbers && cur in w.visited && cur in g.store
    ensures EdgesOk(g, w.(lines := w.lines + [Edge(w.numbers[cur], w.numbers[a])]), cur, [a] + part)
  {
    var w' := w.(lines := w.lines + [Edge(w.numbers[cur], w.numbers[a])]);
    Appended(w.lines, Edge(w.numbers[cur], w.numbers[a]));
    forall x, y | x in w'.numbers && y in w'.numbers
      ensures EdgeCount(w'.lines, w'.numbers[x], w'.numbers[y]) == multiset(Drawn(g, w', cur, [a] + part, x))[y]
    {
      assert EdgeCount(w.lines, w.numbers[x], w.numbers[y]) == multiset(Drawn(g, w, cur, part, x))[y];
      if x == cur {
        assert multiset([a] + part) == multiset{a} + multiset(part);
      }
    }
  }

  lemma ReferEdges(g: Server, root: EventId, w: Walk, cur: EventId, part: seq<EventId>, a: EventId)
    requires Inv(g, root, w, cur, part) && cur in w.visited && cur in g.store
    ensures EdgesOk(g, Referred(g, w, cur, a).0, cur, [a] + part)
  {
    hide Reaches, Mentioned, NodesOk;
    var w', w1 := Referred(g, w, cur, a).0, Numbered(w, a);
    NumberedOk(w, a);
    NumberedEdges(g, w, cur, part, a);
    EdgesAfterEdge(g, w1, cur, part, a);
    hide EdgeCount;
    var w2 := w1.(lines := w1.lines + [Edge(w1.numbers[cur], w1.numbers[a])]);
    assert forall x :: Drawn(g, w', cur, [a] + part, x) == Drawn(g, w2, cur, [a] + part, x);
  }

  lemma ReferClosed(g: Server, w: Walk, cur: EventId, part: seq<EventId>, a: EventId)
    requires Closed(g, w, cur, part) && cur in w.numbers
    ensures Closed(g, Referred(g, w, cur, a).0, cur, [a] + part)
  {
    var w' := Referred(g, w, cur, a).0;
    forall p, b | p in w'.visited && b in Drawn(g, w', cur, [a] + part, p) ensures b in w'.numbers {
      if b != a {
        assert b in Drawn(g, w, cur, part, p);
      }
    }
  }

  lemma ReferTraced(g: Server, root: EventId, w: Walk, cur: EventId, a: EventId)
    requires Traced(g, root, w) && cur in w.visited && cur in g.store && a in g.store[cur].auth
    ensures Traced(g, root, Referred(g, w, cur, a).0)
  {
    hide Reaches;
    assert Mentioned(g, root, a);
    hide Mentioned;
  }

  lemma ReferInv(g: Server, root: EventId, w: Walk, cur: EventId, part: seq<EventId>, a: EventId)
    requires Inv(g, root, w, cur, part) && cur in w.visited && cur in g.store && a in g.store[cur].auth
    ensures Inv(g, root, Referred(g, w, cur, a).0, cur, [a] + part)
  {
    ReferEdges(g, root, w, cur, part, a);
    hide EdgesOk;
    ReferClosed(g, w, cur, part, a);
    ReferTraced(g, root, w, cur, a);
    hide Closed, Traced;
    NumberedOk(w, a);
    NumberedNodes(g, w, a);
  }

  /** The counts, with the collected children still to be pushed or drawn. */
  ghost predicate Pending(g: Server, w: Walk, cs: seq<Child>) {
    && (forall e :: multiset(w.stack)[e] + (if e in g.store then Fresh(cs, e) else 0)
          == if e in w.scheduled && e in g.store && e !in w.visited then 1 else 0)
    && (forall e :: NodeCount(w.lines, e) + (if e in g.store then 0 else Fresh(cs, e))
          == if e in w.visited || (e in w.scheduled && e !in g.store) then 1 else 0)
    && (forall e :: e in w.cached <==> e in w.scheduled && e in g.store)
  }

  ghost predicate ChildOk(g: Server, w: Walk, c: Child) {
    c.id in w.numbers && c.number == w.numbers[c.id] && c.held == (c.id in g.store)
  }

  lemma NothingPending(g: Server, w: Walk)
    ensures Counts(g, w) <==> Pending(g, w, [])
  {}

  lemma ReferPending(g: Server, w: Walk, cur: EventId, a: EventId, cs: seq<Child>)
    requires Pending(g, w, cs) && cur in w.numbers && (forall e :: e in w.visited ==> e in w.scheduled)
    ensures var (w', c) := Referred(g, w, cur, a);
            Pending(g, w', cs + [c]) && ChildOk(g, w', c)
  {
    hide NodeCount, EdgeCount, Fresh;
    var (w', c) := Referred(g, w, cur, a);
    Appended(Numbered(w, a).lines, Edge(w'.numbers[cur], w'.numbers[a]));
    forall e ensures Fresh(cs + [c], e) == Fresh(cs, e) + (if c.first && c.id == e then 1 else 0) {
      FreshSnoc(cs, c, e);
    }
  }

  // ------------------------------------------------------ handling the children

  /** Follow a new child that is held, draw one that is not. */
  function Pushed(g: Server, w: Walk, c: Child): Walk {
    if !c.first then w
    else if c.held then w.(stack := w.stack + [c.id])
    else w.(lines := w.lines + [Node(c.number, c.id, "", StatusOf(g, c.id), true)])
  }

  lemma PushPending(g: Server, w: Walk, cs: seq<Child>, c: Child)
    requires Pending(g, w, cs + [c]) && ChildOk(g, w, c)
    ensures Pending(g, Pushed(g, w, c), cs)
  {
    hide NodeCount, EdgeCount, Fresh;
    var w' := Pushed(g, w, c);
    forall e ensures Fresh(cs + [c], e) == Fresh(cs, e) + (if c.first && c.id == e then 1 else 0) {
      FreshSnoc(cs, c, e);
    }
    if c.first && c.held {
      assert multiset(w.stack + [c.id]) == multiset(w.stack) + multiset{c.id};
    } else if c.first {
      Appended(w.lines, Node(c.number, c.id, "", StatusOf(g, c.id), true));
    }
  }

  lemma PushInv(g: Server, root: EventId, w: Walk, cur: EventId, part: seq<EventId>, c: Child)
    requires Inv(g, root, w, cur, part) && ChildOk(g, w, c)
    ensures Inv(g, root, Pushed(g, w, c), cur, part)
  {
    hide Reaches, Mentioned, EdgeCount, Numbering;
    var w' := Pushed(g, w, c);
    assert forall x :: Drawn(g, w', cur, part, x) == Drawn(g, w, cur, part, x);
    if c.first && !c.held {
      var l := Node(c.number, c.id, "", StatusOf(g, c.id), true);
      assert l == NodeLine(g, w.numbers, c.id);
      EdgesAfterNode(g, w, cur, part, l);
    }
    hide EdgesOk;
    PushNodes(g, w, c);
    assert Numbering(w') by {
      NumberingFrame(w, w');
    }
  }

  lemma NumberingFrame(w: Walk, w': Walk)
    requires Numbering(w) && w'.names == w.names && w'.next == w.next && w'.numbers == w.numbers
    ensures Numbering(w')
  {}

  lemma PushNodes(g: Server, w: Walk, c: Child)
    requires NodesOk(g, w) && ChildOk(g, w, c)
    ensures NodesOk(g, Pushed(g, w, c))
  {}

  // --------------------------------------------------------------- the command

  /** The finished drawing: every mentioned event once, with its own number and
      status; every auth reference of a reachable held event once per occurrence;
      nothing else. */
  ghost predicate Drawing(g: Server, root: EventId, numbers: map<EventId, nat>, lines: seq<Line>) {
    && (forall e :: e in numbers <==> Mentioned(g, root, e))
    && (forall a, b :: a in numbers && b in numbers && numbers[a] == numbers[b] ==> a == b)
    && (forall e :: NodeCount(lines, e) == if Mentioned(g, root, e) then 1 else 0)
    && (forall i :: 0 <= i < |lines| && lines[i].Node? ==>
          lines[i].id in numbers && lines[i] == NodeLine(g, numbers, lines[i].id))
    && (forall x, y :: x in numbers && y in numbers ==>
          EdgeCount(lines, numbers[x], numbers[y]) == if x in g.store then multiset(g.store[x].auth)[y] else 0)
    && (forall i: nat, j: nat :: EdgeCount(lines, i, j) > 0 ==>
          exists x, y :: x in numbers && y in numbers && numbers[x] == i && numbers[y] == j)
  }

  /** With an empty stack everything mentioned was scheduled. */
  lemma {:induction false} ChainVisited(g: Server, root: EventId, w: Walk, path: seq<EventId>)
    requires root in g.store && Inv(g, root, w, root, g.store[root].auth) && Counts(g, w) && w.stack == []
    requires IsChain(g, path) && path[0] == root
    ensures path[|path| - 1] in w.visited
    decreases |path|
  {
    var n := |path| - 1;
    assert multiset(w.stack)[path[n]] == 0;
    if n > 0 {
      ChainVisited(g, root, w, path[..n]);
      DrawnWhole(g, w, root, path[n - 1]);
      assert path[n] in Drawn(g, w, root, g.store[root].auth, path[n - 1]);
    }
  }

  lemma DrawnWhole(g: Server, w: Walk, cur: EventId, x: EventId)
    requires cur in g.store
    ensures Drawn(g, w, cur, g.store[cur].auth, x) == if x in w.visited && x in g.store then g.store[x].auth else []
  {}

  ghost predicate Done(g: Server, root: EventId, w: Walk) {
    root in g.store && Inv(g, root, w, root, g.store[root].auth) && Counts(g, w) && w.stack == []
  }

  lemma VisitedIsReachable(g: Server, root: EventId, w: Walk, e: EventId)
    requires Done(g, root, w)
    ensures e in w.visited <==> Reaches(g, root, e)
  {
    if Reaches(g, root, e) {
      var path :| IsChain(g, path) && path[0] == root && path[|path| - 1] == e;
      ChainVisited(g, root, w, path);
    }
  }

  lemma NumberedIsMentioned(g: Server, root: EventId, w: Walk, e: EventId)
    requires Done(g, root, w)
    ensures e in w.numbers <==> Mentioned(g, root, e)
    ensures e in w.scheduled <==> Mentioned(g, root, e)
  {
    hide EdgesOk, NodesOk, Numbering;
    VisitedIsReachable(g, root, w, e);
    assert Reaches(g, root, root) by {
      assert IsChain(g, [root]);
    }
    VisitedIsReachable(g, root, w, root);
    if Mentioned(g, root, e) && !Reaches(g, root, e) {
      var p :| Reaches(g, root, p) && p in g.store && e in g.store[p].auth;
      VisitedIsReachable(g, root, w, p);
      DrawnWhole(g, w, root, p);
      assert e in Drawn(g, w, root, g.store[root].auth, p);
    }
  }

  lemma FinishedNode(g: Server, root: EventId, w: Walk, e: EventId)
    requires Done(g, root, w)
    ensures NodeCount(w.lines, e) == if Mentioned(g, root, e) then 1 else 0
  {
    hide Inv, Reaches, Mentioned;
    NumberedIsMentioned(g, root, w, e);
    VisitedIsReachable(g, root, w, e);
    if Mentioned(g, root, e) && e in g.store {
      MentionedHeld(g, root, e);
    }
    ReachableIsMentioned(g, root, e);
  }

  lemma ReachableIsMentioned(g: Server, root: EventId, e: EventId)
    ensures Reaches(g, root, e) ==> Mentioned(g, root, e)
  {}

  lemma FinishedEdge(g: Server, root: EventId, w: Walk, x: EventId, y: EventId)
    requires Done(g, root, w) && x in w.numbers && y in w.numbers
    ensures EdgeCount(w.lines, w.numbers[x], w.numbers[y]) == if x in g.store then multiset(g.store[x].auth)[y] else 0
  {
    hide Traced, NodesOk, Numbering, Reaches, Mentioned, Counts;
    DrawnWhole(g, w, root, x);
    NumberedIsMentioned(g, root, w, x);
    VisitedIsReachable(g, root, w, x);
    if x in g.store {
      MentionedHeld(g, root, x);
    }
  }

  /** An edge line never names a number that was not given out. */
  lemma FinishedNumbers(g: Server, root: EventId, w: Walk, i: nat, j: nat)
    requires Done(g, root, w) && EdgeCount(w.lines, i, j) > 0
    ensures exists x, y :: x in w.numbers && y in w.numbers && w.numbers[x] == i && w.numbers[y] == j
  {
    hide EdgeCount, Traced, NodesOk, Closed, Counts;
    assert i < w.next && j < w.next;
    assert w.numbers[w.names[i]] == i && w.numbers[w.names[j]] == j;
  }

  lemma FinishedShape(g: Server, root: EventId, w: Walk)
    requires Done(g, root, w)
    ensures NodesOk(g, w) && Numbering(w)
  {}

  lemma Finished(g: Server, root: EventId, w: Walk)
    requires Done(g, root, w)
    ensures Drawing(g, root, w.numbers, w.lines)
  {
    hide Reaches, Mentioned, Done, NodeCount, EdgeCount, NodeLine;
    FinishedShape(g, root, w);
    forall e ensures e in w.numbers <==> Mentioned(g, root, e) {
      NumberedIsMentioned(g, root, w, e);
    }
    forall e ensures NodeCount(w.lines, e) == if Mentioned(g, root, e) then 1 else 0 {
      FinishedNode(g, root, w, e);
    }
    forall x, y | x in w.numbers && y in w.numbers
      ensures EdgeCount(w.lines, w.numbers[x], w.numbers[y]) == if x in g.store then multiset(g.store[x].auth)[y] else 0
    {
      FinishedEdge(g, root, w, x, y);
    }
    forall i: nat, j: nat | EdgeCount(w.lines, i, j) > 0
      ensures exists x, y :: x in w.numbers && y in w.numbers && w.numbers[x] == i && w.numbers[y] == j
    {
      FinishedNumbers(g, root, w, i, j);
    }
  }

  /** Which event was last does not matter once it is fully expanded. */
  lemma Settle(g: Server, root: EventId, w: Walk, a: EventId, b: EventId)
    requires a in g.store && b in g.store && Inv(g, root, w, a, g.store[a].auth)
    ensures Inv(g, root, w, b, g.store[b].auth)
  {
    forall x ensures Drawn(g, w, a, g.store[a].auth, x) == Drawn(g, w, b, g.store[b].auth, x) {
      DrawnWhole(g, w, a, x);
      DrawnWhole(g, w, b, x);
    }
  }

  lemma StartOk(g: Server, root: EventId)
    requires root in g.store
    ensures var w := Walk(map[], 0, [], {root}, {root}, {}, [root], []);
            Inv(g, root, w, root, g.store[root].auth) && Counts(g, w)
  {
    assert IsChain(g, [root]);
  }

  /** The references of one event, last to first. */
  method DrawReferences(g: Server, ghost root: EventId, w0: Walk, cur: EventId)
    returns (w: Walk, children: seq<Child>)
    requires cur in g.store && Inv(g, root, w0, cur, []) && Counts(g, w0) && cur in w0.visited
    ensures Inv(g, root, w, cur, g.store[cur].auth) && Pending(g, w, children)
    ensures forall i :: 0 <= i < |children| ==> ChildOk(g, w, children[i])
    ensures w.visited == w0.visited
  {
    hide Inv, Pending, Referred, Counts, ChildOk;
    var auth := g.store[cur].auth;
    w, children := w0, [];
    NothingPending(g, w);
    var i := |auth|;
    assert auth[i..] == [];
    while i > 0
      invariant 0 <= i <= |auth|
      invariant Inv(g, root, w, cur, auth[i..]) && Pending(g, w, children)
      invariant w.visited == w0.visited
      invariant forall k :: 0 <= k < |children| ==> ChildOk(g, w, children[k])
    {
      i := i - 1;
      var a := auth[i];
      assert auth[i..] == [a] + auth[i + 1..];
      InvNumbers(g, root, w, cur, auth[i + 1..]);
      ReferInv(g, root, w, cur, auth[i + 1..], a);
      ReferPending(g, w, cur, a, children);
      ReferKeeps(g, w, cur, a, children);
      var (w', c) := Referred(g, w, cur, a);
      w, children := w', children + [c];
    }
    assert auth[0..] == auth;
  }

  lemma InvNumbers(g: Server, root: EventId, w: Walk, cur: EventId, part: seq<EventId>)
    requires Inv(g, root, w, cur, part)
    ensures forall e :: e in w.visited ==> e in w.numbers && e in w.scheduled
  {}

  lemma ReferKeeps(g: Server, w: Walk, cur: EventId, a: EventId, cs: seq<Child>)
    requires cur in w.numbers && forall k :: 0 <= k < |cs| ==> ChildOk(g, w, cs[k])
    ensures var w' := Referred(g, w, cur, a).0;
            w'.visited == w.visited && forall k :: 0 <= k < |cs| ==> ChildOk(g, w', cs[k])
  {}

  /** The children in sorted order, last to first, so that the one with the
      lowest depth is followed next. */
  method HandleChildren(g: Server, ghost root: EventId, w0: Walk, ghost cur: EventId, children: seq<Child>)
    returns (w: Walk)
    requires cur in g.store && Inv(g, root, w0, cur, g.store[cur].auth) && Pending(g, w0, children)
    requires forall i :: 0 <= i < |children| ==> ChildOk(g, w0, children[i])
    ensures Inv(g, root, w, cur, g.store[cur].auth) && Counts(g, w)
    ensures w.visited == w0.visited
    ensures w.stack == w0.stack + Follow(Sort(children))
  {
    hide Inv, Pending, ChildOk, Counts, Sort;
    var sorted := Sort(children);
    SortedChildren(g, w0, children);
    w := w0;
    var k := |sorted|;
    assert sorted[..k] == sorted;
    while k > 0
      invariant 0 <= k <= |sorted|
      invariant Inv(g, root, w, cur, g.store[cur].auth) && Pending(g, w, sorted[..k])
      invariant w.visited == w0.visited && w.numbers == w0.numbers
      invariant w.stack == w0.stack + Follow(sorted[k..])
      invariant forall i :: 0 <= i < |sorted| ==> ChildOk(g, w0, sorted[i])
    {
      k := k - 1;
      assert sorted[..k + 1] == sorted[..k] + [sorted[k]];
      assert sorted[k..][1..] == sorted[k + 1..];
      SameNumbers(g, w0, w, sorted[k]);
      PushInv(g, root, w, cur, g.store[cur].auth, sorted[k]);
      PushPending(g, w, sorted[..k], sorted[k]);
      w := Pushed(g, w, sorted[k]);
    }
    assert sorted[..0] == [] && sorted[0..] == sorted;
    NothingPending(g, w);
  }

  lemma SameNumbers(g: Server, w: Walk, w': Walk, c: Child)
    requires ChildOk(g, w, c) && w'.numbers == w.numbers
    ensures ChildOk(g, w', c)
  {}

  lemma SortedChildren(g: Server, w: Walk, cs: seq<Child>)
    requires Pending(g, w, cs) && forall i :: 0 <= i < |cs| ==> ChildOk(g, w, cs[i])
    ensures Pending(g, w, Sort(cs))
    ensures forall i :: 0 <= i < |Sort(cs)| ==> ChildOk(g, w, Sort(cs)[i])
  {
    forall e ensures Fresh(Sort(cs), e) == Fresh(cs, e) {
      FreshSort(cs, e);
    }
    SortOk(cs);
    forall i | 0 <= i < |Sort(cs)| ensures ChildOk(g, w, Sort(cs)[i]) {
      assert Sort(cs)[i] in multiset(Sort(cs));
      assert Sort(cs)[i] in cs;
    }
  }

  /** What a node line says, in the terms of the server. */
  lemma NodesMean(g: Server, root: EventId, numbers: map<EventId, nat>, lines: seq<Line>)
    requires Drawing(g, root, numbers, lines)
    ensures forall l :: l in lines && l.Node? ==>
              && l.id in numbers && l.number == numbers[l.id]
              && (l.missing <==> l.id !in g.store)
              && l.name == (if l.id in g.store then g.store[l.id].name else "")
              && (l.status == Rejected <==> l.id in g.rejected)
              && (l.status == SoftFailed <==> l.id in g.softFailed && l.id !in g.rejected)
  {
    forall l | l in lines && l.Node?
      ensures l.id in numbers && l == NodeLine(g, numbers, l.id)
    {
      var i :| 0 <= i < |lines| && lines[i] == l;
    }
  }

  /** Draws the auth chain of an event. Terminates on every store, cyclic ones
      included, and takes no event from its stack twice. */
  method ShowAuthChain(g: Server, root: EventId) returns (r: Reply, ghost numbers: map<EventId, nat>)
    ensures r.NotFound? <==> root !in g.store
    ensures r.Graph? ==> Drawing(g, root, numbers, r.lines)
    ensures r.Graph? ==> forall l :: l in r.lines && l.Node? ==>
              && l.id in numbers && l.number == numbers[l.id]
              && (l.missing <==> l.id !in g.store)
              && l.name == (if l.id in g.store then g.store[l.id].name else "")
              && (l.status == Rejected <==> l.id in g.rejected)
              && (l.status == SoftFailed <==> l.id in g.softFailed && l.id !in g.rejected)
  {
    numbers := map[];
    if root !in g.store {
      return NotFound, numbers;
    }
    var w := Walk(map[], 0, [], {root}, {root}, {}, [root], []);
    StartOk(g, root);
    hide Inv, Counts, Drawing, Pending, ChildOk;
    while w.stack != []
      invariant Inv(g, root, w, root, g.store[root].auth) && Counts(g, w)
      decreases g.store.Keys - w.visited
    {
      var cur := w.stack[|w.stack| - 1];
      PopCounts(g, w);
      assert cur !in w.visited; // the guard against repeated visits never fires
      TakeInv(g, root, w, root);
      ghost var unvisited := g.store.Keys - w.visited;
      w := Taken(g, w);
      assert g.store.Keys - w.visited == unvisited - {cur} && cur in unvisited;
      var children;
      w, children := DrawReferences(g, root, w, cur);
      w := HandleChildren(g, root, w, cur, children);
      Settle(g, root, w, cur, root);
    }
    Finished(g, root, w);
    NodesMean(g, root, w.numbers, w.lines);
    numbers := w.numbers;
    r := Graph(w.lines);
  }
}
