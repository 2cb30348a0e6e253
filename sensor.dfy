/**
 * The volume sensor: a breadth-first flood-fill over the lattice around the
 * floored player position.  One pass (`GenerateField`) empties `nodes`,
 * `spawnNodes` and the queue, seeds the queue with the origin and drains it,
 * expanding each dequeued cell with `CreateNeighbors`.
 */
module Sensor {
  import opened Geometry
  import opened Expansion

  /** A recorded cell is within `maxDistance` of the origin and outside the bare dead zone. */
  predicate InRange(cfg: Config, origin: Cell, c: Cell)
  {
    && !DistanceExceeds(c, origin, cfg.maxDistance)
    && (c.y != origin.y ==> !FlatDistanceBelow(c, origin, cfg.deadZone))
  }

  /**
   * What holds throughout a pass: the two sets are disjoint, every reachable
   * cell is in range and in sight of the origin, every spawn candidate is in
   * range, out of sight and beyond `minSpawnDist`, and every queued cell other
   * than the seed is a reachable cell.
   */
  predicate PassInvariant(cfg: Config, origin: Cell, obstructed: Oracle, f: Field)
  {
    && f.nodes !! f.spawnNodes
    && (forall c :: c in f.nodes ==> InRange(cfg, origin, c) && !obstructed(origin, c))
    && (forall c :: c in f.spawnNodes ==>
          && InRange(cfg, origin, c)
          && obstructed(origin, c)
          && FlatDistanceExceeds(c, origin, cfg.minSpawnDist))
    && (forall q :: q in f.openList ==> q in f.nodes || q == origin)
  }

  /** A neighbour that passes the filters of a cell on any layer is in range. */
  lemma AdmissibleInRange(cfg: Config, origin: Cell, layer: int, c: Cell)
    requires layer >= 0 && Admissible(cfg, origin, layer, c)
    ensures InRange(cfg, origin, c)
  {
    if c.y != origin.y && FlatDistanceBelow(c, origin, cfg.deadZone) {
      FlatDistanceBelowMonotone(c, origin, cfg.deadZone, layer as real + cfg.deadZone);
    }
  }

  /** CreateNeighbors keeps the pass invariant, whichever cell it expands. */
  lemma ExpandPreservesPassInvariant(cfg: Config, origin: Cell, obstructed: Oracle, cell: Cell, f: Field)
    requires PassInvariant(cfg, origin, obstructed, f)
    ensures PassInvariant(cfg, origin, obstructed, Expand(cfg, origin, obstructed, cell, f))
  {
    var layer, ds := FindLayer(origin, cell), DirectionsFor(origin, cell);
    var r := Expand(cfg, origin, obstructed, cell, f);
    ExpandAlongExtends(cfg, origin, obstructed, cell, layer, ds, f);
    ExpandAlongRecords(cfg, origin, obstructed, cell, layer, ds, f);
    ExpandAlongDisjoint(cfg, origin, obstructed, cell, layer, ds, f);
    forall c | c in r.nodes
      ensures InRange(cfg, origin, c) && !obstructed(origin, c)
    {
      if c !in f.nodes {
        AdmissibleInRange(cfg, origin, layer, c);
      }
    }
    forall c | c in r.spawnNodes
      ensures InRange(cfg, origin, c) && obstructed(origin, c) && FlatDistanceExceeds(c, origin, cfg.minSpawnDist)
    {
      if c !in f.spawnNodes {
        AdmissibleInRange(cfg, origin, layer, c);
      }
    }
    forall q | q in r.openList
      ensures q in r.nodes || q == origin
    {
      var i :| 0 <= i < |r.openList| && r.openList[i] == q;
      if i < |f.openList| {
        assert f.openList[i] == q;
      } else {
        assert q in r.openList[|f.openList|..];
      }
    }
  }

  /**
   * The loop invariant of GenerateField: the pass invariant, every cell already
   * expanded is closed, and every reachable cell and the origin are expanded
   * or still queued.
   */
  ghost predicate DrainInvariant(cfg: Config, origin: Cell, obstructed: Oracle, f: Field, expanded: set<Cell>)
  {
    && PassInvariant(cfg, origin, obstructed, f)
    && (forall c :: c in expanded ==> Closed(cfg, origin, obstructed, c, f.nodes, f.spawnNodes))
    && (forall c :: c in f.nodes || c == origin ==> c in expanded || c in f.openList)
  }

  /**
   * One iteration of GenerateField (dequeue, then CreateNeighbors) keeps the loop
   * invariant, removes nothing from either set, and either records a new reachable cell inside the finite box of
   * radius `maxDistance` or shortens the queue.
   */
  lemma DrainStep(cfg: Config, origin: Cell, obstructed: Oracle, f: Field, expanded: set<Cell>)
    requires DrainInvariant(cfg, origin, obstructed, f, expanded) && |f.openList| > 0
    ensures var cell := f.openList[0];
      var r := Expand(cfg, origin, obstructed, cell, f.(openList := f.openList[1..]));
      && DrainInvariant(cfg, origin, obstructed, r, expanded + {cell})
      && f.nodes <= r.nodes && f.spawnNodes <= r.spawnNodes
      && (r.nodes == f.nodes ==> |r.openList| < |f.openList|)
      && (r.nodes != f.nodes ==>
            Box(origin, Radius(cfg.maxDistance)) - r.nodes < Box(origin, Radius(cfg.maxDistance)) - f.nodes)
  {
    var cell := f.openList[0];
    var mid := f.(openList := f.openList[1..]);
    var r := Expand(cfg, origin, obstructed, cell, mid);
    ExpandPreservesPassInvariant(cfg, origin, obstructed, cell, mid);
    ExpandAlongExtends(cfg, origin, obstructed, cell, FindLayer(origin, cell), DirectionsFor(origin, cell), mid);
    ExpandCloses(cfg, origin, obstructed, cell, mid);
    forall c | c in expanded
      ensures Closed(cfg, origin, obstructed, c, r.nodes, r.spawnNodes)
    {
      ClosedMonotone(cfg, origin, obstructed, c, f.nodes, f.spawnNodes, r.nodes, r.spawnNodes);
    }
    forall c | c in mid.openList
      ensures c in r.openList
    {
      var i :| 0 <= i < |mid.openList| && mid.openList[i] == c;
      assert r.openList[i] == c;
    }
    if r.nodes != f.nodes {
      var box := Box(origin, Radius(cfg.maxDistance));
      var c :| c in r.nodes && c !in f.nodes;
      WithinDistanceInBox(c, origin, cfg.maxDistance);
      assert c in box - f.nodes && c !in box - r.nodes;
    }
  }

  /** No cell straight above or below the origin is ever recorded when the dead zone is positive. */
  lemma DirectlyAboveNeverRecorded(cfg: Config, origin: Cell, obstructed: Oracle, f: Field, c: Cell)
    requires PassInvariant(cfg, origin, obstructed, f)
    requires cfg.deadZone > 0.0 && c.x == origin.x && c.z == origin.z && c.y != origin.y
    ensures c !in f.nodes && c !in f.spawnNodes
  {
    var t := cfg.deadZone;
    SquareStrictMonotone(0.0, t);
    assert FlatDistanceSquared(c, origin) == 0.0;
    assert FlatDistanceBelow(c, origin, t);
  }

  class VolumeSensor {
    var resolution: int
    var maxDistance: real
    var minSpawnDist: real
    var deadZone: real
    var nodes: set<Cell>
    var spawnNodes: set<Cell>
    var openList: seq<Cell>
    var intOrigin: Cell

    constructor (resolution: int, maxDistance: real, minSpawnDist: real, deadZone: real)
      ensures Settings() == Config(resolution, maxDistance, minSpawnDist, deadZone)
      ensures State() == Field({}, {}, [])
    {
      this.resolution := resolution;
      this.maxDistance := maxDistance;
      this.minSpawnDist := minSpawnDist;
      this.deadZone := deadZone;
      nodes, spawnNodes, openList := {}, {}, [];
      intOrigin := Cell(0, 0, 0);
    }

    function Settings(): Config
      reads this
    {
      Config(resolution, maxDistance, minSpawnDist, deadZone)
    }

    function State(): Field
      reads this
    {
      Field(nodes, spawnNodes, openList)
    }

    /**
     * One pass of the flood-fill around `position`.  It ends with an empty
     * queue and the pass invariant, and with the origin and every reachable
     * cell closed: none of their neighbours would be recorded if examined again.
     */
    method GenerateField(position: Point, obstructed: Oracle)
      modifies this`nodes, this`spawnNodes, this`openList, this`intOrigin
      ensures intOrigin == Floor(position)
      ensures openList == []
      ensures PassInvariant(Settings(), intOrigin, obstructed, State())
      ensures forall c :: c in nodes || c == intOrigin ==>
                Closed(Settings(), intOrigin, obstructed, c, nodes, spawnNodes)
    {
      nodes := {};
      spawnNodes := {};
      openList := [];
      intOrigin := Floor(position);
      openList := openList + [intOrigin];
      ghost var expanded: set<Cell> := {};
      while |openList| > 0
        invariant intOrigin == Floor(position)
        invariant DrainInvariant(Settings(), intOrigin, obstructed, State(), expanded)
        decreases Box(intOrigin, Radius(maxDistance)) - nodes, |openList|
      {
        var cell := openList[0];
        DrainStep(Settings(), intOrigin, obstructed, State(), expanded);
        openList := openList[1..];
        CreateNeighbors(cell, obstructed);
        expanded := expanded + {cell};
      }
    }

    /** Expansion of one dequeued cell: walks `m` or `r` and classifies each neighbour. */
    method CreateNeighbors(startPos: Cell, obstructed: Oracle)
      modifies this`nodes, this`spawnNodes, this`openList
      ensures State() == Expand(Settings(), intOrigin, obstructed, startPos, old(State()))
    {
      var layer := FindLayer(intOrigin, startPos);
      var r := AllDirections;
      var m := HorizontalDirections;
      var u;
      if Abs(intOrigin.y - startPos.y) == layer {
        u := m;
      } else {
        u := r;
      }
      ghost var cfg, f0 := Settings(), State();
      for i := 0 to |u|
        invariant State() == ExpandAlong(cfg, intOrigin, obstructed, startPos, layer, u[..i], f0)
      {
        var neigPos := Offset(startPos, u[i], resolution);
        ExpandAlongStep(cfg, intOrigin, obstructed, startPos, layer, u, i, f0);
        ghost var g := State();
        RecordCases(cfg, intOrigin, obstructed, layer, g, neigPos);
        if DistanceExceeds(neigPos, intOrigin, maxDistance) || neigPos in nodes || neigPos in spawnNodes {
          continue;
        }
        if FlatDistanceBelow(neigPos, intOrigin, layer as real + deadZone) &&
           (neigPos.y > intOrigin.y || neigPos.y < intOrigin.y) {
          continue;
        }
        if obstructed(intOrigin, neigPos) && FlatDistanceExceeds(neigPos, intOrigin, minSpawnDist) {
          spawnNodes := spawnNodes + {neigPos};
        } else if !obstructed(intOrigin, neigPos) {
          nodes := nodes + {neigPos};
          openList := openList + [neigPos];
        }
      }
      assert u[..|u|] == u;
    }
  }
}
