// The depth-limited breadth-first walk of `shallow_boundaries` (src/git.rs), and what
// making its result parentless leaves visible.
module ShallowWalk {
  import opened Base
  import opened ObjectDb

  newtype u32 = x: int | 0 <= x < 0x1_0000_0000

  /** The parents of each object id that decodes as a commit. */
  type Graph = map<Oid, seq<Oid>>

  function Parents(odb: Odb): Graph {
    map o | o in odb && DecodeCommit(odb, o).Ok? :: DecodeCommit(odb, o).value
  }

  /** `p` is a parent of `v`. */
  predicate Edge(g: Graph, v: Oid, p: Oid) {
    v in g && p in g[v]
  }

  // ---------------------------------------------------------------
  // Reference meaning: reachability in n edges and shortest distance.
  // ---------------------------------------------------------------

  /** There is a parent path with exactly `n` edges from `tip` to `v`. */
  ghost predicate Reach(g: Graph, tip: Oid, n: nat, v: Oid) {
    if n == 0 then v == tip
    else exists u :: Reach(g, tip, n - 1, u) && Edge(g, u, v)
  }

  ghost predicate Reachable(g: Graph, tip: Oid, v: Oid) {
    exists n: nat :: Reach(g, tip, n, v)
  }

  /** The shortest parent path from `tip` to `v` has `k` edges. */
  ghost predicate AtDistance(g: Graph, tip: Oid, k: nat, v: Oid) {
    Reach(g, tip, k, v) && forall j: nat :: j < k ==> !Reach(g, tip, j, v)
  }

  /** `v` is one of the commits that `depth` visible levels show. */
  ghost predicate Within(g: Graph, tip: Oid, depth: nat, v: Oid) {
    exists k: nat :: k < depth && AtDistance(g, tip, k, v)
  }

  /** Every link of `p` is a parent edge. */
  ghost predicate IsPath(g: Graph, p: seq<Oid>) {
    p != [] && forall i :: 0 <= i < |p| - 1 ==> Edge(g, p[i], p[i + 1])
  }

  /** `Reach` counts the edges of explicit paths. */
  lemma {:induction false} ReachIsPath(g: Graph, tip: Oid, n: nat, v: Oid)
    ensures Reach(g, tip, n, v) <==> exists p :: IsPath(g, p) && |p| == n + 1 && p[0] == tip && p[n] == v
  {
    if n == 0 {
      if v == tip {
        assert IsPath(g, [tip]);
      }
    } else {
      if Reach(g, tip, n, v) {
        var u :| Reach(g, tip, n - 1, u) && Edge(g, u, v);
        ReachIsPath(g, tip, n - 1, u);
        var p :| IsPath(g, p) && |p| == n && p[0] == tip && p[n - 1] == u;
        assert IsPath(g, p + [v]);
      }
      if p :| IsPath(g, p) && |p| == n + 1 && p[0] == tip && p[n] == v {
        var q := p[..n];
        assert IsPath(g, q);
        ReachIsPath(g, tip, n - 1, q[n - 1]);
        assert Edge(g, p[n - 1], v);
      }
    }
  }

  /** A reachable commit has a shortest distance. */
  lemma {:induction false} HasDistance(g: Graph, tip: Oid, n: nat, v: Oid) returns (k: nat)
    requires Reach(g, tip, n, v)
    ensures k <= n && AtDistance(g, tip, k, v)
  {
    k := 0;
    while !Reach(g, tip, k, v)
      invariant k <= n && forall j: nat :: j < k ==> !Reach(g, tip, j, v)
      decreases n - k
    {
      k := k + 1;
    }
  }

  /** A shortest path goes through a commit one level up. */
  lemma Predecessor(g: Graph, tip: Oid, k: nat, v: Oid) returns (u: Oid)
    requires AtDistance(g, tip, k, v) && v != tip
    ensures k > 0 && AtDistance(g, tip, k - 1, u) && Edge(g, u, v)
  {
    u :| Reach(g, tip, k - 1, u) && Edge(g, u, v);
    forall j: nat | j < k - 1 ensures !Reach(g, tip, j, u) {
      if Reach(g, tip, j, u) {
        assert Reach(g, tip, j + 1, v);
      }
    }
  }

  /** The shortest distances from `tip`, as a map over everything reachable. */
  ghost function Distances(g: Graph, tip: Oid): imap<Oid, nat> {
    imap v | Reachable(g, tip, v) :: Shortest(g, tip, v)
  }

  ghost function Shortest(g: Graph, tip: Oid, v: Oid): (k: nat)
    requires Reachable(g, tip, v)
    ensures AtDistance(g, tip, k, v)
  {
    assert exists k: nat :: AtDistance(g, tip, k, v) by {
      var n: nat :| Reach(g, tip, n, v);
      var k := HasDistance(g, tip, n, v);
    }
    var k: nat :| AtDistance(g, tip, k, v);
    k
  }

  /** `dist` grows by at most one along an edge, and every positive value has a predecessor one below. */
  ghost predicate IsDistance(g: Graph, tip: Oid, dist: imap<Oid, nat>) {
    && tip in dist && dist[tip] == 0
    && (forall u, v :: u in dist && Edge(g, u, v) ==> v in dist && dist[v] <= dist[u] + 1)
    && (forall v {:trigger HasPredecessor(g, dist, v)} :: v in dist && v != tip ==> HasPredecessor(g, dist, v))
  }

  ghost predicate HasPredecessor(g: Graph, dist: imap<Oid, nat>, v: Oid)
    requires v in dist
  {
    exists u :: u in dist && dist[u] + 1 == dist[v] && Edge(g, u, v)
  }

  lemma DistancesMean(g: Graph, tip: Oid)
    ensures forall k: nat, v :: AtDistance(g, tip, k, v) <==> v in Distances(g, tip) && Distances(g, tip)[v] == k
  {
    var dist := Distances(g, tip);
    forall k: nat, v ensures AtDistance(g, tip, k, v) <==> v in dist && dist[v] == k {
      if AtDistance(g, tip, k, v) {
        assert Reachable(g, tip, v);
        var j := Shortest(g, tip, v);
        assert !(j < k) && !(k < j);
      }
    }
  }

  lemma DistancesAre(g: Graph, tip: Oid)
    ensures IsDistance(g, tip, Distances(g, tip))
  {
    var dist := Distances(g, tip);
    DistancesMean(g, tip);
    assert Reach(g, tip, 0, tip);
    forall u, v | u in dist && Edge(g, u, v) ensures v in dist && dist[v] <= dist[u] + 1 {
      assert Reach(g, tip, dist[u] + 1, v);
      var k := HasDistance(g, tip, dist[u] + 1, v);
    }
    forall v | v in dist && v != tip ensures HasPredecessor(g, dist, v) {
      var u := Predecessor(g, tip, dist[v], v);
      assert u in dist && dist[u] + 1 == dist[v];
    }
  }

  // ---------------------------------------------------------------
  // The walk.
  // ---------------------------------------------------------------

  /** Every commit strictly above the cut decodes. */
  ghost predicate DecodesAbove(odb: Odb, tip: Oid, maxDepth: nat) {
    forall k: nat, v :: k + 1 < maxDepth && AtDistance(Parents(odb), tip, k, v) ==> DecodeCommit(odb, v).Ok?
  }

  /** `e` reports a commit strictly above the cut that does not decode. */
  ghost predicate ReportsUndecodable(odb: Odb, tip: Oid, maxDepth: nat, e: GitError) {
    exists k: nat, v :: k + 1 < maxDepth && AtDistance(Parents(odb), tip, k, v) && DecodeCommit(odb, v) == Err(e)
  }

  /** `s` lists each commit at distance `k` from `tip` exactly once, and nothing else. */
  ghost predicate ListsDistance(g: Graph, tip: Oid, k: nat, s: seq<Oid>) {
    NoDup(s) && forall v :: v in s <==> AtDistance(g, tip, k, v)
  }

  datatype Entry = Entry(oid: Oid, depth: u32)

  /**
   * The `VecDeque` of the walk, kept with its history: `pop_front` advances a head index,
   * `push_back` appends.
   */
  type Queue = seq<Entry>

  /** `p` has been queued at depth at most `d`. */
  ghost predicate Queued(queue: Queue, p: Oid, d: nat) {
    exists i :: 0 <= i < |queue| && queue[i].oid == p && queue[i].depth as nat <= d
  }

  predicate InOrder(queue: Queue, i: nat, j: nat)
    requires i < |queue| && j < |queue|
  {
    queue[i].depth <= queue[j].depth
  }

  /** Queued depths are lengths of paths, in order, and those still waiting span at most two levels. */
  ghost predicate QueueInv(dist: imap<Oid, nat>, maxDepth: u32, queue: Queue, head: nat) {
    && head <= |queue|
    && (forall i :: 0 <= i < |queue| ==>
          queue[i].oid in dist && dist[queue[i].oid] < queue[i].depth as nat && queue[i].depth <= maxDepth)
    && (forall i: nat, j: nat {:trigger InOrder(queue, i, j)} :: i < j < |queue| ==> InOrder(queue, i, j))
    && (head < |queue| ==> forall i :: 0 <= i < |queue| ==> queue[i].depth as nat <= queue[head].depth as nat + 1)
  }

  /**
   * What is behind the head has been visited; what has been visited was queued at its
   * shortest distance, and below the cut its parents are queued one level down.
   */
  ghost predicate VisitedInv(g: Graph, dist: imap<Oid, nat>, maxDepth: u32, seen: set<Oid>, queue: Queue, head: nat)
    requires head <= |queue|
  {
    && (forall i :: 0 <= i < head ==> queue[i].oid in seen)
    && (forall v :: v in seen ==> v in dist && dist[v] < maxDepth as nat && Queued(queue, v, dist[v] + 1))
    && (head < |queue| ==> forall v :: v in seen && v in dist ==> dist[v] < queue[head].depth as nat)
    && (forall v, p :: v in seen && v in dist && dist[v] + 1 < maxDepth as nat && Edge(g, v, p) ==>
         Queued(queue, p, dist[v] + 2))
  }

  ghost predicate WalkInv(g: Graph, tip: Oid, dist: imap<Oid, nat>, maxDepth: u32, seen: set<Oid>, queue: Queue,
                          head: nat)
  {
    && IsDistance(g, tip, dist)
    && QueueInv(dist, maxDepth, queue, head)
    && VisitedInv(g, dist, maxDepth, seen, queue, head)
    && Queued(queue, tip, 1)
  }

  /** A commit within the depth limit has been visited, or something still queued is due no later than it. */
  lemma {:induction false} NothingOverlooked(g: Graph, tip: Oid, dist: imap<Oid, nat>, maxDepth: u32, seen: set<Oid>,
                                             queue: Queue, head: nat, v: Oid)
    requires WalkInv(g, tip, dist, maxDepth, seen, queue, head)
    requires v in dist && dist[v] < maxDepth as nat
    ensures v in seen || (head < |queue| && queue[head].depth as nat <= dist[v] + 1)
    decreases dist[v]
  {
    if v != tip {
      assert HasPredecessor(g, dist, v);
      var u :| u in dist && dist[u] + 1 == dist[v] && Edge(g, u, v);
      NothingOverlooked(g, tip, dist, maxDepth, seen, queue, head, u);
      if u !in seen {
        return;
      }
    }
    var i :| 0 <= i < |queue| && queue[i].oid == v && queue[i].depth as nat <= dist[v] + 1;
    assert i > head ==> InOrder(queue, head, i);
  }

  /** The first unvisited queue entry carries its shortest distance. */
  lemma PoppedAtDistance(g: Graph, tip: Oid, dist: imap<Oid, nat>, maxDepth: u32, seen: set<Oid>, queue: Queue,
                         head: nat)
    requires WalkInv(g, tip, dist, maxDepth, seen, queue, head)
    requires head < |queue| && queue[head].oid !in seen
    ensures dist[queue[head].oid] + 1 == queue[head].depth as nat
  {
    NothingOverlooked(g, tip, dist, maxDepth, seen, queue, head, queue[head].oid);
  }

  /** The entries one visit appends: its parents, in order, that are not yet visited. */
  function Pushed(parents: seq<Oid>, seen: set<Oid>, depth: u32): Queue {
    if parents == [] then []
    else
      var last := parents[|parents| - 1];
      Pushed(parents[..|parents| - 1], seen, depth) + (if last in seen then [] else [Entry(last, depth)])
  }

  lemma {:induction false} PushedIsExact(parents: seq<Oid>, seen: set<Oid>, depth: u32)
    ensures forall e :: e in Pushed(parents, seen, depth) <==> e.depth == depth && e.oid in parents && e.oid !in seen
  {
    if parents != [] {
      PushedIsExact(parents[..|parents| - 1], seen, depth);
    }
  }

  /** `pushed` is what a visit of `oid` at `depth` may append. */
  ghost predicate RightlyPushed(g: Graph, maxDepth: u32, seen: set<Oid>, oid: Oid, depth: u32, pushed: Queue) {
    && (forall e :: e in pushed ==> depth < maxDepth && e.depth == depth + 1 && Edge(g, oid, e.oid))
    && (depth < maxDepth ==> forall p :: Edge(g, oid, p) && p !in seen ==> Entry(p, depth + 1) in pushed)
  }

  lemma QueueAfterVisit(g: Graph, tip: Oid, dist: imap<Oid, nat>, maxDepth: u32, seen: set<Oid>, seen': set<Oid>,
                        queue: Queue, head: nat, pushed: Queue)
    requires WalkInv(g, tip, dist, maxDepth, seen, queue, head) && head < |queue|
    requires RightlyPushed(g, maxDepth, seen', queue[head].oid, queue[head].depth, pushed)
    ensures QueueInv(dist, maxDepth, queue + pushed, head + 1)
  {
    forall i | 0 <= i < |pushed| ensures pushed[i] in pushed {
    }
    forall i: nat, j: nat | i < j < |queue + pushed| ensures InOrder(queue + pushed, i, j) {
      if j < |queue| {
        assert InOrder(queue, i, j);
      }
    }
    if head + 1 < |queue| {
      assert InOrder(queue, head, head + 1);
    }
  }

  lemma QueuedStays(queue: Queue, pushed: Queue, p: Oid, d: nat)
    requires Queued(queue, p, d)
    ensures Queued(queue + pushed, p, d)
  {
    var i :| 0 <= i < |queue| && queue[i].oid == p && queue[i].depth as nat <= d;
    assert (queue + pushed)[i] == queue[i];
  }

  /** After a visit, each parent of the visited commit is queued one level down. */
  lemma ParentsQueued(g: Graph, tip: Oid, dist: imap<Oid, nat>, maxDepth: u32, seen: set<Oid>, queue: Queue, head: nat,
                      pushed: Queue, p: Oid)
    requires WalkInv(g, tip, dist, maxDepth, seen, queue, head) && head < |queue| && queue[head].oid !in seen
    requires RightlyPushed(g, maxDepth, seen + {queue[head].oid}, queue[head].oid, queue[head].depth, pushed)
    requires queue[head].depth < maxDepth && Edge(g, queue[head].oid, p)
    ensures Queued(queue + pushed, p, queue[head].depth as nat + 1)
  {
    if p in seen {
      QueuedStays(queue, pushed, p, dist[p] + 1);
    } else if p == queue[head].oid {
      QueuedStays(queue, pushed, p, queue[head].depth as nat);
    } else {
      var i :| 0 <= i < |pushed| && pushed[i] == Entry(p, queue[head].depth + 1);
      assert (queue + pushed)[|queue| + i] == pushed[i];
    }
  }

  lemma VisitedAfterVisit(g: Graph, tip: Oid, dist: imap<Oid, nat>, maxDepth: u32, seen: set<Oid>, queue: Queue,
                          head: nat, pushed: Queue)
    requires WalkInv(g, tip, dist, maxDepth, seen, queue, head) && head < |queue| && queue[head].oid !in seen
    requires RightlyPushed(g, maxDepth, seen + {queue[head].oid}, queue[head].oid, queue[head].depth, pushed)
    requires QueueInv(dist, maxDepth, queue + pushed, head + 1)
    ensures VisitedInv(g, dist, maxDepth, seen + {queue[head].oid}, queue + pushed, head + 1)
  {
    var Entry(oid, depth) := queue[head];
    PoppedAtDistance(g, tip, dist, maxDepth, seen, queue, head);
    if head + 1 < |queue| {
      assert InOrder(queue, head, head + 1);
    }
    forall v | v in seen + {oid} ensures v in dist && Queued(queue + pushed, v, dist[v] + 1) {
      QueuedStays(queue, pushed, v, dist[v] + 1);
    }
    forall v, p | v in seen + {oid} && dist[v] + 1 < maxDepth as nat && Edge(g, v, p)
      ensures Queued(queue + pushed, p, dist[v] + 2)
    {
      if v == oid {
        ParentsQueued(g, tip, dist, maxDepth, seen, queue, head, pushed, p);
      } else {
        assert v in seen;
        QueuedStays(queue, pushed, p, dist[v] + 2);
      }
    }
  }

  /** Visiting a commit keeps the invariant once its parents are queued. */
  lemma Visit(g: Graph, tip: Oid, dist: imap<Oid, nat>, maxDepth: u32, seen: set<Oid>, queue: Queue, head: nat,
              pushed: Queue, seen': set<Oid>, queue': Queue)
    requires WalkInv(g, tip, dist, maxDepth, seen, queue, head) && head < |queue| && queue[head].oid !in seen
    requires seen' == seen + {queue[head].oid} && queue' == queue + pushed
    requires RightlyPushed(g, maxDepth, seen', queue[head].oid, queue[head].depth, pushed)
    ensures WalkInv(g, tip, dist, maxDepth, seen', queue', head + 1)
  {
    QueueAfterVisit(g, tip, dist, maxDepth, seen, seen', queue, head, pushed);
    VisitedAfterVisit(g, tip, dist, maxDepth, seen, queue, head, pushed);
    QueuedStays(queue, pushed, tip, 1);
  }

  lemma SkipVisited(g: Graph, tip: Oid, dist: imap<Oid, nat>, maxDepth: u32, seen: set<Oid>, queue: Queue, head: nat)
    requires WalkInv(g, tip, dist, maxDepth, seen, queue, head) && head < |queue| && queue[head].oid in seen
    ensures WalkInv(g, tip, dist, maxDepth, seen, queue, head + 1)
  {
    if head + 1 < |queue| {
      assert InOrder(queue, head, head + 1);
    }
  }

  /** With the queue empty, the visited commits are exactly those within `maxDepth`. */
  lemma WalkDone(g: Graph, tip: Oid, dist: imap<Oid, nat>, maxDepth: u32, seen: set<Oid>, queue: Queue)
    requires WalkInv(g, tip, dist, maxDepth, seen, queue, |queue|)
    ensures forall v :: v in seen <==> v in dist && dist[v] < maxDepth as nat
  {
    forall v | v in dist && dist[v] < maxDepth as nat ensures v in seen {
      NothingOverlooked(g, tip, dist, maxDepth, seen, queue, |queue|, v);
    }
  }

  /** What the walk has decoded and listed so far. */
  ghost predicate ResultInv(g: Graph, dist: imap<Oid, nat>, maxDepth: u32, seen: set<Oid>, frontier: seq<Oid>) {
    && (forall v :: v in seen && v in dist && dist[v] + 1 < maxDepth as nat ==> v in g)
    && NoDup(frontier)
    && (forall v :: v in frontier <==> v in seen && v in dist && dist[v] + 1 == maxDepth as nat)
  }

  /** A visit at the cut: the popped commit joins the frontier. */
  lemma VisitAtCut(g: Graph, tip: Oid, dist: imap<Oid, nat>, maxDepth: u32, seen: set<Oid>, frontier: seq<Oid>,
                   queue: Queue, head: nat, seen': set<Oid>, frontier': seq<Oid>)
    requires WalkInv(g, tip, dist, maxDepth, seen, queue, head) && ResultInv(g, dist, maxDepth, seen, frontier)
    requires head < |queue| && queue[head].oid !in seen && queue[head].depth == maxDepth
    requires seen' == seen + {queue[head].oid} && frontier' == frontier + [queue[head].oid]
    ensures WalkInv(g, tip, dist, maxDepth, seen', queue, head + 1) && ResultInv(g, dist, maxDepth, seen', frontier')
  {
    PoppedAtDistance(g, tip, dist, maxDepth, seen, queue, head);
    Visit(g, tip, dist, maxDepth, seen, queue, head, [], seen', queue);
  }

  /** A visit above the cut: the popped commit decodes and its unvisited parents are appended. */
  lemma VisitAbove(g: Graph, tip: Oid, dist: imap<Oid, nat>, maxDepth: u32, seen: set<Oid>, frontier: seq<Oid>,
                   queue: Queue, head: nat, parents: seq<Oid>, seen': set<Oid>, queue': Queue)
    requires WalkInv(g, tip, dist, maxDepth, seen, queue, head) && ResultInv(g, dist, maxDepth, seen, frontier)
    requires head < |queue| && queue[head].oid !in seen && queue[head].depth < maxDepth
    requires queue[head].oid in g && g[queue[head].oid] == parents
    requires seen' == seen + {queue[head].oid} && queue' == queue + Pushed(parents, seen', queue[head].depth + 1)
    ensures WalkInv(g, tip, dist, maxDepth, seen', queue', head + 1) && ResultInv(g, dist, maxDepth, seen', frontier)
  {
    PoppedAtDistance(g, tip, dist, maxDepth, seen, queue, head);
    PushedIsExact(parents, seen', queue[head].depth + 1);
    Visit(g, tip, dist, maxDepth, seen, queue, head, Pushed(parents, seen', queue[head].depth + 1), seen', queue');
  }

  /** The inner loop of the walk: append each parent that is not yet visited. */
  method QueueParents(queue: Queue, parents: seq<Oid>, seen: set<Oid>, depth: u32) returns (queue': Queue)
    ensures queue' == queue + Pushed(parents, seen, depth)
  {
    queue' := queue;
    for i := 0 to |parents|
      invariant queue' == queue + Pushed(parents[..i], seen, depth)
    {
      assert parents[..i + 1][..i] == parents[..i];
      if parents[i] !in seen {
        queue' := queue' + [Entry(parents[i], depth)];
      }
    }
    assert parents[..|parents|] == parents;
  }

  /** `g` holds the parents of exactly the ids that decode. */
  ghost predicate IsParents(odb: Odb, g: Graph) {
    forall o {:trigger DecodeCommit(odb, o)} ::
      (o in g <==> DecodeCommit(odb, o).Ok?) && (o in g ==> g[o] == DecodeCommit(odb, o).value)
  }

  /** The first visit of a popped commit: the frontier at the cut, the parents above it. */
  method VisitCommit(odb: Odb, maxDepth: u32, oid: Oid, depth: u32, seen: set<Oid>, frontier: seq<Oid>, queue: Queue,
                     ghost head: nat, ghost tip: Oid, ghost g: Graph, ghost dist: imap<Oid, nat>)
    returns (error: Option<GitError>, frontier': seq<Oid>, queue': Queue)
    requires WalkInv(g, tip, dist, maxDepth, seen, queue, head) && ResultInv(g, dist, maxDepth, seen, frontier)
    requires head < |queue| && queue[head] == Entry(oid, depth) && oid !in seen && IsParents(odb, g)
    ensures error.None? ==> WalkInv(g, tip, dist, maxDepth, seen + {oid}, queue', head + 1)
    ensures error.None? ==> ResultInv(g, dist, maxDepth, seen + {oid}, frontier')
    ensures error.None? ==> oid in odb || queue' == queue
    ensures error.Some? ==> oid in dist && dist[oid] + 1 < maxDepth as nat && DecodeCommit(odb, oid) == Err(error.value)
  {
    error, frontier', queue' := None, frontier, queue;
    PoppedAtDistance(g, tip, dist, maxDepth, seen, queue, head);
    if depth == maxDepth {
      frontier' := frontier + [oid];
      VisitAtCut(g, tip, dist, maxDepth, seen, frontier, queue, head, seen + {oid}, frontier');
    } else {
      var commit := DecodeCommit(odb, oid);
      if commit.Err? {
        error := Some(commit.error);
        return;
      }
      queue' := QueueParents(queue, commit.value, seen + {oid}, depth + 1);
      VisitAbove(g, tip, dist, maxDepth, seen, frontier, queue, head, commit.value, seen + {oid}, queue');
    }
  }

  /** One turn of the loop of the walk; it uses up an id of the database or a queued entry. */
  method WalkTurn(odb: Odb, maxDepth: u32, seen: set<Oid>, frontier: seq<Oid>, queue: Queue, head: nat,
                  ghost tip: Oid, ghost g: Graph, ghost dist: imap<Oid, nat>)
    returns (error: Option<GitError>, seen': set<Oid>, frontier': seq<Oid>, queue': Queue)
    requires WalkInv(g, tip, dist, maxDepth, seen, queue, head) && ResultInv(g, dist, maxDepth, seen, frontier)
    requires head < |queue| && IsParents(odb, g)
    ensures error.None? ==> WalkInv(g, tip, dist, maxDepth, seen', queue', head + 1)
    ensures error.None? ==> ResultInv(g, dist, maxDepth, seen', frontier')
    ensures error.None? ==>
              odb.Keys - seen' < odb.Keys - seen || (odb.Keys - seen' == odb.Keys - seen && |queue'| == |queue|)
    ensures error.Some? ==>
              var oid := queue[head].oid;
              oid in dist && dist[oid] + 1 < maxDepth as nat && DecodeCommit(odb, oid) == Err(error.value)
  {
    var Entry(oid, depth) := queue[head];
    if oid in seen {
      error, seen', frontier', queue' := None, seen, frontier, queue;
      SkipVisited(g, tip, dist, maxDepth, seen, queue, head);
    } else {
      error, frontier', queue' := VisitCommit(odb, maxDepth, oid, depth, seen, frontier, queue, head, tip, g, dist);
      seen' := seen + {oid};
      assert oid in odb ==> oid in odb.Keys - seen && oid !in odb.Keys - seen';
    }
  }

  lemma WalkStarts(g: Graph, tip: Oid, dist: imap<Oid, nat>, maxDepth: u32)
    requires maxDepth != 0 && IsDistance(g, tip, dist)
    ensures WalkInv(g, tip, dist, maxDepth, {}, [Entry(tip, 1)], 0)
    ensures ResultInv(g, dist, maxDepth, {}, [])
  {
    assert [Entry(tip, 1)][0].oid == tip;
  }

  /** The loop of the walk, against any distance function; a failure names the commit that did not decode. */
  method WalkLoop(odb: Odb, tip: Oid, maxDepth: u32, ghost g: Graph, ghost dist: imap<Oid, nat>)
    returns (r: Result<seq<Oid>>, ghost visited: set<Oid>, ghost failed: Oid)
    requires maxDepth != 0 && IsParents(odb, g) && IsDistance(g, tip, dist)
    ensures r.Ok? ==> ResultInv(g, dist, maxDepth, visited, r.value)
    ensures r.Ok? ==> forall v :: v in visited <==> v in dist && dist[v] < maxDepth as nat
    ensures r.Err? ==> failed in dist && dist[failed] + 1 < maxDepth as nat && DecodeCommit(odb, failed) == Err(r.error)
  {
    var seen: set<Oid> := {};
    var frontier: seq<Oid> := [];
    var queue: Queue := [Entry(tip, 1)];
    var head: nat := 0;
    WalkStarts(g, tip, dist, maxDepth);
    while head < |queue|
      invariant WalkInv(g, tip, dist, maxDepth, seen, queue, head)
      invariant ResultInv(g, dist, maxDepth, seen, frontier)
      decreases odb.Keys - seen, |queue| - head
    {
      var error, seen', frontier', queue' := WalkTurn(odb, maxDepth, seen, frontier, queue, head, tip, g, dist);
      if error.Some? {
        return Err(error.value), seen, queue[head].oid;
      }
      seen, frontier, queue := seen', frontier', queue';
      head := head + 1;
    }
    WalkDone(g, tip, dist, maxDepth, seen, queue);
    return Ok(frontier), seen, tip;
  }

  /** The walk from an already peeled commit. */
  method WalkFrontier(odb: Odb, tip: Oid, maxDepth: u32) returns (r: Result<seq<Oid>>)
    requires maxDepth != 0
    ensures r.Ok? ==> ListsDistance(Parents(odb), tip, maxDepth as nat - 1, r.value)
    ensures r.Ok? ==> DecodesAbove(odb, tip, maxDepth as nat)
    ensures r.Err? ==> ReportsUndecodable(odb, tip, maxDepth as nat, r.error)
  {
    ghost var dist := Distances(Parents(odb), tip);
    DistancesAre(Parents(odb), tip);
    DistancesMean(Parents(odb), tip);
    ghost var visited, failed;
    r, visited, failed := WalkLoop(odb, tip, maxDepth, Parents(odb), dist);
  }

  /**
   * The frontier of the walk: exactly the commits whose shortest parent path from the
   * peeled tip has `maxDepth - 1` edges, each once. It fails exactly when peeling fails
   * or some commit strictly above the cut does not decode.
   */
  method ShallowBoundaries(odb: Odb, tip: Oid, maxDepth: u32) returns (r: Result<seq<Oid>>)
    requires maxDepth != 0
    ensures PeelLeaf(odb, tip, {}).Err? ==> r.Err? && r.error == PeelLeaf(odb, tip, {}).error
    ensures PeelLeaf(odb, tip, {}).Ok? && !odb[PeelLeaf(odb, tip, {}).value].Commit? ==> r == Ok([])
    ensures PeelLeaf(odb, tip, {}).Ok? && odb[PeelLeaf(odb, tip, {}).value].Commit? ==>
              var leaf := PeelLeaf(odb, tip, {}).value;
              && (r.Ok? <==> DecodesAbove(odb, leaf, maxDepth as nat))
              && (r.Ok? ==> ListsDistance(Parents(odb), leaf, maxDepth as nat - 1, r.value))
              && (r.Err? ==> ReportsUndecodable(odb, leaf, maxDepth as nat, r.error))
  {
    var peeled := PeelTagChain(odb, tip);
    if peeled.Err? {
      return Err(peeled.error);
    }
    match peeled.value {
      case TreeTip(_, _) => return Ok([]);
      case BlobTip(_, _) => return Ok([]);
      case CommitTip(commit, _) => r := WalkFrontier(odb, commit, maxDepth);
    }
  }
}
