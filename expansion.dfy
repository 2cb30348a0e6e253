/**
 * The expansion of one dequeued cell (`CreateNeighbors`) as a function of the
 * sensor's state, and what one expansion guarantees: which neighbours it looks
 * at, how each neighbour is classified, that recorded cells are never recorded
 * again, and that expanding the same cell twice changes nothing the second time.
 */
module Expansion {
  import opened Geometry

  /** The sensor's settings: `resolution`, `maxDistance`, `minSpawnDist`, `deadZone`. */
  datatype Config = Config(resolution: int, maxDistance: real, minSpawnDist: real, deadZone: real)

  /** The state one pass works on: `nodes`, `spawnNodes` and the FIFO `openList`. */
  datatype Field = Field(nodes: set<Cell>, spawnNodes: set<Cell>, openList: seq<Cell>)

  /**
   * What happens to one neighbour: skipped at line 84 (too far or already
   * recorded), skipped at lines 86-88 (dead zone), or one of the three outcomes
   * of the line-of-sight test.
   */
  datatype Outcome = Skipped | InDeadZone | SpawnCandidate | Reachable | Dropped

  /** The line-of-sight oracle `Physics.Linecast`: true when the segment is obstructed. */
  type Oracle = (Cell, Cell) -> bool

  /** The directions CreateNeighbors walks for `cell`: `m` on the layer's rim, `r` otherwise. */
  function DirectionsFor(origin: Cell, cell: Cell): seq<Direction>
  {
    if Abs(origin.y - cell.y) == FindLayer(origin, cell) then HorizontalDirections else AllDirections
  }

  /** The classification of neighbour `n` of a cell on layer `layer`. */
  function Classify(cfg: Config, origin: Cell, obstructed: Oracle, layer: int,
                    nodes: set<Cell>, spawnNodes: set<Cell>, n: Cell): Outcome
  {
    if DistanceExceeds(n, origin, cfg.maxDistance) || n in nodes || n in spawnNodes then
      Skipped
    else if FlatDistanceBelow(n, origin, layer as real + cfg.deadZone) && (n.y > origin.y || n.y < origin.y) then
      InDeadZone
    else if obstructed(origin, n) && FlatDistanceExceeds(n, origin, cfg.minSpawnDist) then
      SpawnCandidate
    else if !obstructed(origin, n) then
      Reachable
    else
      Dropped
  }

  /** The effect of an outcome on the state. */
  function Record(f: Field, n: Cell, outcome: Outcome): Field
  {
    match outcome
    case SpawnCandidate => f.(spawnNodes := f.spawnNodes + {n})
    case Reachable => f.(nodes := f.nodes + {n}, openList := f.openList + [n])
    case _ => f
  }

  /** Walking the directions `ds` from `cell` in order, starting from state `f`. */
  function ExpandAlong(cfg: Config, origin: Cell, obstructed: Oracle, cell: Cell, layer: int,
                       ds: seq<Direction>, f: Field): Field
    decreases |ds|
  {
    if |ds| == 0 then f
    else
      var g := ExpandAlong(cfg, origin, obstructed, cell, layer, ds[..|ds| - 1], f);
      var n := Offset(cell, ds[|ds| - 1], cfg.resolution);
      Record(g, n, Classify(cfg, origin, obstructed, layer, g.nodes, g.spawnNodes, n))
  }

  /** Walking one more direction classifies and records one more neighbour. */
  lemma ExpandAlongStep(cfg: Config, origin: Cell, obstructed: Oracle, cell: Cell, layer: int,
                        ds: seq<Direction>, i: nat, f: Field)
    requires i < |ds|
    ensures var g := ExpandAlong(cfg, origin, obstructed, cell, layer, ds[..i], f);
      var n := Offset(cell, ds[i], cfg.resolution);
      ExpandAlong(cfg, origin, obstructed, cell, layer, ds[..i + 1], f)
        == Record(g, n, Classify(cfg, origin, obstructed, layer, g.nodes, g.spawnNodes, n))
  {
    assert ds[..i + 1][..i] == ds[..i];
  }

  /** The effect of examining `n`, case by case in the order the filters are applied. */
  lemma RecordCases(cfg: Config, origin: Cell, obstructed: Oracle, layer: int, g: Field, n: Cell)
    ensures var r := Record(g, n, Classify(cfg, origin, obstructed, layer, g.nodes, g.spawnNodes, n));
      if DistanceExceeds(n, origin, cfg.maxDistance) || n in g.nodes || n in g.spawnNodes then r == g
      else if FlatDistanceBelow(n, origin, layer as real + cfg.deadZone) && (n.y > origin.y || n.y < origin.y) then r == g
      else if obstructed(origin, n) && FlatDistanceExceeds(n, origin, cfg.minSpawnDist) then
        r == g.(spawnNodes := g.spawnNodes + {n})
      else if !obstructed(origin, n) then r == g.(nodes := g.nodes + {n}, openList := g.openList + [n])
      else r == g
  {
  }

  /** One call of CreateNeighbors(cell). */
  function Expand(cfg: Config, origin: Cell, obstructed: Oracle, cell: Cell, f: Field): Field
  {
    ExpandAlong(cfg, origin, obstructed, cell, FindLayer(origin, cell), DirectionsFor(origin, cell), f)
  }

  /** `c` is `cell + d * resolution` for one of the directions `ds`. */
  ghost predicate IsNeighbor(cell: Cell, resolution: int, ds: seq<Direction>, c: Cell)
  {
    exists d :: d in ds && c == Offset(cell, d, resolution)
  }

  /** A neighbour that passes the filters at lines 84 and 86-88 for a cell on layer `layer`. */
  predicate Admissible(cfg: Config, origin: Cell, layer: int, c: Cell)
  {
    && !DistanceExceeds(c, origin, cfg.maxDistance)
    && !(FlatDistanceBelow(c, origin, layer as real + cfg.deadZone) && c.y != origin.y)
  }

  /** Examining `n` would leave the state as it is. */
  predicate Settled(cfg: Config, origin: Cell, obstructed: Oracle, layer: int,
                    nodes: set<Cell>, spawnNodes: set<Cell>, n: Cell)
  {
    var k := Classify(cfg, origin, obstructed, layer, nodes, spawnNodes, n);
    k != SpawnCandidate && k != Reachable
  }

  /** Every neighbour CreateNeighbors(cell) would examine is settled. */
  predicate Closed(cfg: Config, origin: Cell, obstructed: Oracle, cell: Cell,
                   nodes: set<Cell>, spawnNodes: set<Cell>)
  {
    forall d :: d in DirectionsFor(origin, cell) ==>
      Settled(cfg, origin, obstructed, FindLayer(origin, cell), nodes, spawnNodes, Offset(cell, d, cfg.resolution))
  }

  /** `g` is `f` with cells added to the two sets and to the back of the queue. */
  predicate Extends(f: Field, g: Field)
  {
    && f.nodes <= g.nodes
    && f.spawnNodes <= g.spawnNodes
    && |f.openList| <= |g.openList|
    && g.openList[..|f.openList|] == f.openList
  }

  /**
   * On the rim of its layer a cell is expanded only horizontally; elsewhere
   * along all six axes.  No expansion of a rim cell leaves its y plane.
   */
  lemma DirectionsShape(origin: Cell, cell: Cell, resolution: int)
    ensures var ds := DirectionsFor(origin, cell);
      Abs(origin.y - cell.y) == FindLayer(origin, cell) ==>
        && |ds| == 4
        && (forall d :: d in ds <==> !IsVertical(d))
        && (forall d :: d in ds ==> Offset(cell, d, resolution).y == cell.y)
    ensures var ds := DirectionsFor(origin, cell);
      Abs(origin.y - cell.y) != FindLayer(origin, cell) ==>
        && |ds| == 6
        && (forall d :: d in ds)
        && (forall d :: d in ds ==> DistanceSquared(Offset(cell, d, resolution), cell) == Sq(resolution))
  {
    forall d: Direction
      ensures d in AllDirections
    {
      match d
      case Right => assert AllDirections[0] == d;
      case Left => assert AllDirections[1] == d;
      case Up => assert AllDirections[2] == d;
      case Down => assert AllDirections[3] == d;
      case Forward => assert AllDirections[4] == d;
      case Back => assert AllDirections[5] == d;
    }
    forall d: Direction
      ensures DistanceSquared(Offset(cell, d, resolution), cell) == Sq(resolution)
    {
      OffsetDistance(cell, d, resolution);
    }
  }

  /** Each neighbour that passes the filters is classified in exactly one of three ways. */
  lemma RecordClassification(cfg: Config, origin: Cell, obstructed: Oracle, layer: int, f: Field, n: Cell)
    requires n !in f.nodes && n !in f.spawnNodes && Admissible(cfg, origin, layer, n)
    ensures var r := Record(f, n, Classify(cfg, origin, obstructed, layer, f.nodes, f.spawnNodes, n));
      && (obstructed(origin, n) && FlatDistanceExceeds(n, origin, cfg.minSpawnDist) ==>
            r == f.(spawnNodes := f.spawnNodes + {n}) && n in r.spawnNodes && n !in r.nodes)
      && (!obstructed(origin, n) ==>
            r == f.(nodes := f.nodes + {n}, openList := f.openList + [n]) && n !in r.spawnNodes)
      && (obstructed(origin, n) && !FlatDistanceExceeds(n, origin, cfg.minSpawnDist) ==>
            r == f && n !in r.nodes && n !in r.spawnNodes)
  {
  }

  /**
   * An expansion only adds: both sets grow, the old queue is a prefix of the new
   * one, and the cells appended to the queue are exactly the cells new in
   * `nodes`.
   */
  lemma {:induction false} ExpandAlongExtends(cfg: Config, origin: Cell, obstructed: Oracle, cell: Cell,
                                              layer: int, ds: seq<Direction>, f: Field)
    ensures var r := ExpandAlong(cfg, origin, obstructed, cell, layer, ds, f);
      && Extends(f, r)
      && (forall c :: c in r.openList[|f.openList|..] <==> c in r.nodes && c !in f.nodes)
      && (r.nodes == f.nodes ==> r.openList == f.openList)
    decreases |ds|
  {
    if |ds| > 0 {
      var g := ExpandAlong(cfg, origin, obstructed, cell, layer, ds[..|ds| - 1], f);
      ExpandAlongExtends(cfg, origin, obstructed, cell, layer, ds[..|ds| - 1], f);
      var n := Offset(cell, ds[|ds| - 1], cfg.resolution);
      var k := Classify(cfg, origin, obstructed, layer, g.nodes, g.spawnNodes, n);
      var r := Record(g, n, k);
      assert |f.openList| <= |g.openList|;
      if k == Reachable {
        assert r.openList == g.openList + [n];
        assert r.openList[..|f.openList|] == g.openList[..|f.openList|];
        assert r.openList[|f.openList|..] == g.openList[|f.openList|..] + [n];
      }
    }
  }

  /** Adding a cell outside both sets adds one to their difference. */
  lemma FreshCount(a: set<Cell>, b: set<Cell>, n: Cell)
    requires n !in a && n !in b
    ensures |(a + {n}) - b| == |a - b| + 1
  {
    assert (a + {n}) - b == (a - b) + {n};
  }

  /**
   * An expansion queues each new reachable cell once: the queue grows by exactly
   * the number of cells new in `nodes`.
   */
  lemma {:induction false} ExpandAlongQueuesOnce(cfg: Config, origin: Cell, obstructed: Oracle, cell: Cell,
                                                 layer: int, ds: seq<Direction>, f: Field)
    ensures var r := ExpandAlong(cfg, origin, obstructed, cell, layer, ds, f);
      |r.openList| - |f.openList| == |r.nodes - f.nodes|
    decreases |ds|
  {
    if |ds| == 0 {
      assert f.nodes - f.nodes == {};
    } else {
      var front := ds[..|ds| - 1];
      var g := ExpandAlong(cfg, origin, obstructed, cell, layer, front, f);
      ExpandAlongQueuesOnce(cfg, origin, obstructed, cell, layer, front, f);
      ExpandAlongExtends(cfg, origin, obstructed, cell, layer, front, f);
      var n := Offset(cell, ds[|ds| - 1], cfg.resolution);
      var k := Classify(cfg, origin, obstructed, layer, g.nodes, g.spawnNodes, n);
      var r := Record(g, n, k);
      if k == Reachable {
        assert r.nodes == g.nodes + {n} && |r.openList| == |g.openList| + 1;
        FreshCount(g.nodes, f.nodes, n);
      } else {
        assert r.nodes == g.nodes && r.openList == g.openList;
      }
    }
  }

  /**
   * Every cell that an expansion adds is a neighbour of `cell` that passes the
   * distance and dead-zone filters, was in neither set, and went to the set its
   * line-of-sight test selects; none ends up in both sets.
   */
  lemma {:induction false} ExpandAlongRecords(cfg: Config, origin: Cell, obstructed: Oracle, cell: Cell,
                                              layer: int, ds: seq<Direction>, f: Field)
    ensures var r := ExpandAlong(cfg, origin, obstructed, cell, layer, ds, f);
      && (forall c :: c in r.nodes && c !in f.nodes ==>
            && IsNeighbor(cell, cfg.resolution, ds, c)
            && Admissible(cfg, origin, layer, c)
            && !obstructed(origin, c)
            && c !in r.spawnNodes)
      && (forall c :: c in r.spawnNodes && c !in f.spawnNodes ==>
            && IsNeighbor(cell, cfg.resolution, ds, c)
            && Admissible(cfg, origin, layer, c)
            && obstructed(origin, c)
            && FlatDistanceExceeds(c, origin, cfg.minSpawnDist)
            && c !in r.nodes)
    decreases |ds|
  {
    if |ds| > 0 {
      var front := ds[..|ds| - 1];
      var g := ExpandAlong(cfg, origin, obstructed, cell, layer, front, f);
      ExpandAlongRecords(cfg, origin, obstructed, cell, layer, front, f);
      var d := ds[|ds| - 1];
      var n := Offset(cell, d, cfg.resolution);
      assert d in ds;
      forall c | IsNeighbor(cell, cfg.resolution, front, c)
        ensures IsNeighbor(cell, cfg.resolution, ds, c)
      {
        var e :| e in front && c == Offset(cell, e, cfg.resolution);
        assert e in ds;
      }
    }
  }

  /** An expansion keeps `nodes` and `spawnNodes` disjoint. */
  lemma ExpandAlongDisjoint(cfg: Config, origin: Cell, obstructed: Oracle, cell: Cell,
                            layer: int, ds: seq<Direction>, f: Field)
    requires f.nodes !! f.spawnNodes
    ensures var r := ExpandAlong(cfg, origin, obstructed, cell, layer, ds, f);
      r.nodes !! r.spawnNodes
  {
    var r := ExpandAlong(cfg, origin, obstructed, cell, layer, ds, f);
    ExpandAlongExtends(cfg, origin, obstructed, cell, layer, ds, f);
    ExpandAlongRecords(cfg, origin, obstructed, cell, layer, ds, f);
    forall c | c in r.nodes
      ensures c !in r.spawnNodes
    {
      if c in f.nodes {
        assert c !in f.spawnNodes;
      }
    }
  }

  /** A settled neighbour stays settled when the sets grow. */
  lemma SettledMonotone(cfg: Config, origin: Cell, obstructed: Oracle, layer: int,
                        nodes: set<Cell>, spawnNodes: set<Cell>,
                        nodes': set<Cell>, spawnNodes': set<Cell>, n: Cell)
    requires nodes <= nodes' && spawnNodes <= spawnNodes'
    requires Settled(cfg, origin, obstructed, layer, nodes, spawnNodes, n)
    ensures Settled(cfg, origin, obstructed, layer, nodes', spawnNodes', n)
  {
  }

  /** A closed cell stays closed when the sets grow. */
  lemma ClosedMonotone(cfg: Config, origin: Cell, obstructed: Oracle, cell: Cell,
                       nodes: set<Cell>, spawnNodes: set<Cell>,
                       nodes': set<Cell>, spawnNodes': set<Cell>)
    requires nodes <= nodes' && spawnNodes <= spawnNodes'
    requires Closed(cfg, origin, obstructed, cell, nodes, spawnNodes)
    ensures Closed(cfg, origin, obstructed, cell, nodes', spawnNodes')
  {
    forall d | d in DirectionsFor(origin, cell)
      ensures Settled(cfg, origin, obstructed, FindLayer(origin, cell), nodes', spawnNodes',
                      Offset(cell, d, cfg.resolution))
    {
      SettledMonotone(cfg, origin, obstructed, FindLayer(origin, cell), nodes, spawnNodes,
                      nodes', spawnNodes', Offset(cell, d, cfg.resolution));
    }
  }

  /** After walking `ds`, every neighbour along `ds` is settled. */
  lemma {:induction false} ExpandAlongSettles(cfg: Config, origin: Cell, obstructed: Oracle, cell: Cell,
                                              layer: int, ds: seq<Direction>, f: Field)
    ensures var r := ExpandAlong(cfg, origin, obstructed, cell, layer, ds, f);
      forall d :: d in ds ==>
        Settled(cfg, origin, obstructed, layer, r.nodes, r.spawnNodes, Offset(cell, d, cfg.resolution))
    decreases |ds|
  {
    if |ds| > 0 {
      var front := ds[..|ds| - 1];
      var g := ExpandAlong(cfg, origin, obstructed, cell, layer, front, f);
      var r := ExpandAlong(cfg, origin, obstructed, cell, layer, ds, f);
      ExpandAlongSettles(cfg, origin, obstructed, cell, layer, front, f);
      var n := Offset(cell, ds[|ds| - 1], cfg.resolution);
      assert g.nodes <= r.nodes && g.spawnNodes <= r.spawnNodes;
      forall d | d in ds
        ensures Settled(cfg, origin, obstructed, layer, r.nodes, r.spawnNodes, Offset(cell, d, cfg.resolution))
      {
        if d != ds[|ds| - 1] {
          assert d in front by {
            var i :| 0 <= i < |ds| && ds[i] == d;
            assert i < |ds| - 1 && front[i] == d;
          }
          SettledMonotone(cfg, origin, obstructed, layer, g.nodes, g.spawnNodes,
                          r.nodes, r.spawnNodes, Offset(cell, d, cfg.resolution));
        }
      }
    }
  }

  /** Walking directions whose neighbours are all settled changes nothing. */
  lemma {:induction false} ExpandAlongSettledIdentity(cfg: Config, origin: Cell, obstructed: Oracle, cell: Cell,
                                                      layer: int, ds: seq<Direction>, f: Field)
    requires forall d :: d in ds ==>
      Settled(cfg, origin, obstructed, layer, f.nodes, f.spawnNodes, Offset(cell, d, cfg.resolution))
    ensures ExpandAlong(cfg, origin, obstructed, cell, layer, ds, f) == f
    decreases |ds|
  {
    if |ds| > 0 {
      var front := ds[..|ds| - 1];
      forall d | d in front
        ensures Settled(cfg, origin, obstructed, layer, f.nodes, f.spawnNodes, Offset(cell, d, cfg.resolution))
      {
        assert d in ds;
      }
      ExpandAlongSettledIdentity(cfg, origin, obstructed, cell, layer, front, f);
      assert ds[|ds| - 1] in ds;
    }
  }

  /** After CreateNeighbors(cell), the cell is closed. */
  lemma ExpandCloses(cfg: Config, origin: Cell, obstructed: Oracle, cell: Cell, f: Field)
    ensures var r := Expand(cfg, origin, obstructed, cell, f);
      Closed(cfg, origin, obstructed, cell, r.nodes, r.spawnNodes)
  {
    ExpandAlongSettles(cfg, origin, obstructed, cell, FindLayer(origin, cell), DirectionsFor(origin, cell), f);
  }

  /** Expanding a closed cell changes nothing. */
  lemma ClosedExpandIdentity(cfg: Config, origin: Cell, obstructed: Oracle, cell: Cell, f: Field)
    requires Closed(cfg, origin, obstructed, cell, f.nodes, f.spawnNodes)
    ensures Expand(cfg, origin, obstructed, cell, f) == f
  {
    ExpandAlongSettledIdentity(cfg, origin, obstructed, cell, FindLayer(origin, cell), DirectionsFor(origin, cell), f);
  }

  /** Expanding the same cell a second time adds nothing. */
  lemma ExpandIdempotent(cfg: Config, origin: Cell, obstructed: Oracle, cell: Cell, f: Field)
    ensures var r := Expand(cfg, origin, obstructed, cell, f);
      Expand(cfg, origin, obstructed, cell, r) == r
  {
    var r := Expand(cfg, origin, obstructed, cell, f);
    ExpandCloses(cfg, origin, obstructed, cell, f);
    ClosedExpandIdentity(cfg, origin, obstructed, cell, r);
  }

  /**
   * A cell expanded once and then expanded again after the sets have grown adds
   * nothing the second time; this is why the origin, which a pass enqueues
   * without recording it, may be rediscovered and re-expanded harmlessly.
   */
  lemma LaterReexpansionChangesNothing(cfg: Config, origin: Cell, obstructed: Oracle, cell: Cell, f: Field, g: Field)
    requires var r := Expand(cfg, origin, obstructed, cell, f);
      r.nodes <= g.nodes && r.spawnNodes <= g.spawnNodes
    ensures Expand(cfg, origin, obstructed, cell, g) == g
  {
    var r := Expand(cfg, origin, obstructed, cell, f);
    ExpandCloses(cfg, origin, obstructed, cell, f);
    ClosedMonotone(cfg, origin, obstructed, cell, r.nodes, r.spawnNodes, g.nodes, g.spawnNodes);
    ClosedExpandIdentity(cfg, origin, obstructed, cell, g);
  }

  /**
   * Walking more directions only adds: the sets grow and the queue after the
   * first `k` directions is a prefix of the queue after all of them.
   */
  lemma {:induction false} ExpandAlongPrefixGrows(cfg: Config, origin: Cell, obstructed: Oracle, cell: Cell,
                                                  layer: int, ds: seq<Direction>, k: nat, f: Field)
    requires k <= |ds|
    ensures Extends(ExpandAlong(cfg, origin, obstructed, cell, layer, ds[..k], f),
                    ExpandAlong(cfg, origin, obstructed, cell, layer, ds, f))
    decreases |ds|
  {
    if k < |ds| {
      var front := ds[..|ds| - 1];
      assert front[..k] == ds[..k];
      ExpandAlongPrefixGrows(cfg, origin, obstructed, cell, layer, front, k, f);
      var g := ExpandAlong(cfg, origin, obstructed, cell, layer, ds[..k], f);
      var h := ExpandAlong(cfg, origin, obstructed, cell, layer, front, f);
      var r := ExpandAlong(cfg, origin, obstructed, cell, layer, ds, f);
      assert Extends(h, r);
      assert r.openList[..|g.openList|] == r.openList[..|h.openList|][..|g.openList|];
    } else {
      assert ds[..k] == ds;
    }
  }

  /**
   * Expanding the origin records its right-hand neighbour when that one is in
   * range and in sight, and never records the origin itself.
   */
  lemma OriginExpansion(cfg: Config, o: Cell, obstructed: Oracle)
    requires cfg.resolution != 0
    requires !DistanceExceeds(Offset(o, Right, cfg.resolution), o, cfg.maxDistance)
    requires !obstructed(o, Offset(o, Right, cfg.resolution))
    ensures var f1 := Expand(cfg, o, obstructed, o, Field({}, {}, []));
      && Offset(o, Right, cfg.resolution) in f1.nodes
      && o !in f1.nodes && o !in f1.spawnNodes
      && |f1.openList| > 0 && f1.openList[0] == Offset(o, Right, cfg.resolution)
  {
    var res := cfg.resolution;
    var e := Offset(o, Right, res);
    var f0 := Field({}, {}, []);
    var ds, layer := DirectionsFor(o, o), FindLayer(o, o);
    assert ds == HorizontalDirections && ds[0] == Right;
    ExpandAlongStep(cfg, o, obstructed, o, layer, ds, 0, f0);
    assert ds[..0] == [];
    assert Classify(cfg, o, obstructed, layer, {}, {}, e) == Reachable;
    ExpandAlongPrefixGrows(cfg, o, obstructed, o, layer, ds, 1, f0);
    ExpandAlongRecords(cfg, o, obstructed, o, layer, ds, f0);
    forall d | d in ds
      ensures Offset(o, d, res) != o
    {
    }
  }

  /**
   * Expanding the right-hand neighbour of the origin, while the origin is in
   * neither set, records the origin and appends it to the queue.
   */
  lemma NeighbourRediscoversOrigin(cfg: Config, o: Cell, obstructed: Oracle, f: Field)
    requires cfg.resolution != 0 && cfg.maxDistance >= 0.0 && !obstructed(o, o)
    requires o !in f.nodes && o !in f.spawnNodes
    ensures var r := Expand(cfg, o, obstructed, Offset(o, Right, cfg.resolution), f);
      o in r.nodes && |r.openList| > |f.openList| && o in r.openList[|f.openList|..]
  {
    var res := cfg.resolution;
    var e := Offset(o, Right, res);
    var ds, layer := DirectionsFor(o, e), FindLayer(o, e);
    assert ds[0] == Right && ds[1] == Left;
    var g := ExpandAlong(cfg, o, obstructed, e, layer, ds[..1], f);
    ExpandAlongRecords(cfg, o, obstructed, e, layer, ds[..1], f);
    assert ds[..1] == [Right];
    assert o !in g.nodes && o !in g.spawnNodes;
    ExpandAlongStep(cfg, o, obstructed, e, layer, ds, 1, f);
    assert Offset(e, ds[1], res) == o;
    assert Classify(cfg, o, obstructed, layer, g.nodes, g.spawnNodes, o) == Reachable;
    ExpandAlongPrefixGrows(cfg, o, obstructed, e, layer, ds, 2, f);
    ExpandAlongExtends(cfg, o, obstructed, e, layer, ds, f);
  }

  /**
   * The pass enqueues the origin without recording it.  After the seed is
   * dequeued (state `Field({}, {}, [])`) and expanded, the head of the queue is
   * its right-hand neighbour `e`; dequeuing and expanding `e`, the second step
   * of the pass, rediscovers the origin: it is recorded and queued a second time.
   */
  lemma OriginRediscovered(cfg: Config, o: Cell, obstructed: Oracle)
    requires cfg.resolution != 0
    requires !DistanceExceeds(Offset(o, Right, cfg.resolution), o, cfg.maxDistance)
    requires !obstructed(o, Offset(o, Right, cfg.resolution)) && !obstructed(o, o)
    ensures var e := Offset(o, Right, cfg.resolution);
      var f1 := Expand(cfg, o, obstructed, o, Field({}, {}, []));
      && e in f1.nodes && o !in f1.nodes
      && |f1.openList| > 0 && f1.openList[0] == e
      && var f2 := Expand(cfg, o, obstructed, e, f1.(openList := f1.openList[1..]));
         o in f2.nodes && o in f2.openList
  {
    OriginExpansion(cfg, o, obstructed);
    var f1 := Expand(cfg, o, obstructed, o, Field({}, {}, []));
    var mid := f1.(openList := f1.openList[1..]);
    NeighbourRediscoversOrigin(cfg, o, obstructed, mid);
    var f2 := Expand(cfg, o, obstructed, Offset(o, Right, cfg.resolution), mid);
    assert o in f2.openList[|mid.openList|..];
  }
}
