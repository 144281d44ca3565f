/** The bounded environment of the experiment (SmartcamEnvironment.kt):
    a rectangle of the given width and height centred on the origin, which
    also adds up how far cameras and other objects moved since the last
    query. The positions a node has before and after a move come from the
    simulator's continuous environment, which is not part of this model;
    they are parameters of `MoveNodeToPosition`. */
module SmartcamEnvironment {
  import opened Wrappers
  import opened Geometry

  /** A point of the plane. */
  datatype Position = Position(x: real, y: real)

  function Abs(v: real): (r: real)
    ensures r >= 0.0 && (r == v || r == -v)
  {
    if v < 0.0 then -v else v
  }

  /** `isWithinBoundaries`: a node of the given diameter at `pos` lies
      strictly inside the `width` by `height` rectangle centred on the
      origin. */
  predicate IsWithinBoundaries(width: real, height: real, pos: Position, diameter: real)
  {
    Abs(pos.x) + diameter / 2.0 < width / 2.0 && Abs(pos.y) + diameter / 2.0 < height / 2.0
  }

  /** Whether a point lies strictly inside the rectangle. */
  predicate StrictlyInside(width: real, height: real, p: Position)
  {
    Abs(p.x) < width / 2.0 && Abs(p.y) < height / 2.0
  }

  /** The corner of the node's bounding square farthest from the origin. */
  function FarCorner(pos: Position, diameter: real): (c: Position)
    requires diameter >= 0.0
    ensures Abs(c.x - pos.x) == diameter / 2.0 && Abs(c.y - pos.y) == diameter / 2.0
  {
    Position(if pos.x >= 0.0 then pos.x + diameter / 2.0 else pos.x - diameter / 2.0,
             if pos.y >= 0.0 then pos.y + diameter / 2.0 else pos.y - diameter / 2.0)
  }

  /** The check holds exactly when the farthest corner of the node's
      bounding square is strictly inside the rectangle. */
  lemma WithinIffFarCornerInside(width: real, height: real, pos: Position, diameter: real)
    requires diameter >= 0.0
    ensures IsWithinBoundaries(width, height, pos, diameter) <==> StrictlyInside(width, height, FarCorner(pos, diameter))
  {
  }

  /** When the check holds, every point of the node's bounding square is
      strictly inside the rectangle, and the node is narrower than the
      rectangle in both directions. */
  lemma WithinBoundariesContainsNode(width: real, height: real, pos: Position, diameter: real, p: Position)
    requires IsWithinBoundaries(width, height, pos, diameter)
    requires Abs(p.x - pos.x) <= diameter / 2.0 && Abs(p.y - pos.y) <= diameter / 2.0
    ensures StrictlyInside(width, height, p)
    ensures diameter < width && diameter < height
  {
    assert Abs(p.x) <= Abs(pos.x) + Abs(p.x - pos.x);
    assert Abs(p.y) <= Abs(pos.y) + Abs(p.y - pos.y);
  }

  /** `SmartcamEnvironment`: the boundaries, the molecule marking cameras,
      the distance between positions, and the two movement accumulators. */
  class Environment<N, M> {
    const width: real
    const height: real
    const filterCamera: M
    const distance: (Position, Position) -> real
    var cameraMovements: real
    var objectMovements: real

    constructor(width: real, height: real, filterCamera: M, distance: (Position, Position) -> real)
      ensures this.width == width && this.height == height
      ensures this.filterCamera == filterCamera && this.distance == distance
      ensures cameraMovements == 0.0 && objectMovements == 0.0
      ensures Valid()
    {
      this.width := width;
      this.height := height;
      this.filterCamera := filterCamera;
      this.distance := distance;
      cameraMovements := 0.0;
      objectMovements := 0.0;
    }

    /** Both accumulators are non-negative. */
    ghost predicate Valid()
      reads this
    {
      cameraMovements >= 0.0 && objectMovements >= 0.0
    }

    /** `moveNodeToPosition`: when the node had a position before the move
        and has one after it, the distance between the two goes to the
        camera accumulator if the node contains `filterCamera` and to the
        object accumulator otherwise. */
    method MoveNodeToPosition(node: N, contains: (N, M) -> bool,
                              realLastPos: Option<Position>, realNewPos: Option<Position>)
      modifies this
      ensures realLastPos.Some? && realNewPos.Some? && contains(node, filterCamera) ==>
                cameraMovements == old(cameraMovements) + distance(realLastPos.value, realNewPos.value)
                && objectMovements == old(objectMovements)
      ensures realLastPos.Some? && realNewPos.Some? && !contains(node, filterCamera) ==>
                objectMovements == old(objectMovements) + distance(realLastPos.value, realNewPos.value)
                && cameraMovements == old(cameraMovements)
      ensures realLastPos.None? || realNewPos.None? ==>
                cameraMovements == old(cameraMovements) && objectMovements == old(objectMovements)
      ensures old(Valid()) && IsDistance(distance) ==> Valid()
    {
      if realLastPos.Some? && realNewPos.Some? {
        var d := distance(realLastPos.value, realNewPos.value);
        if contains(node, filterCamera) {
          cameraMovements := cameraMovements + d;
        } else {
          objectMovements := objectMovements + d;
        }
      }
    }

    /** `queryCameraMovementsSinceLastQuery`: returns the camera movements
        and starts counting again from 0. */
    method QueryCameraMovementsSinceLastQuery() returns (result: real)
      modifies this
      ensures result == old(cameraMovements)
      ensures cameraMovements == 0.0 && objectMovements == old(objectMovements)
      ensures old(Valid()) ==> Valid() && result >= 0.0
    {
      result := cameraMovements;
      cameraMovements := 0.0;
    }

    /** `queryObjectMovementsSinceLastQuery`: the same for the other
        objects. */
    method QueryObjectMovementsSinceLastQuery() returns (result: real)
      modifies this
      ensures result == old(objectMovements)
      ensures objectMovements == 0.0 && cameraMovements == old(cameraMovements)
      ensures old(Valid()) ==> Valid() && result >= 0.0
    {
      result := objectMovements;
      objectMovements := 0.0;
    }

    /** `nodeShouldBeAdded`: the boundary check, then the continuous
        environment's own answer. */
    function NodeShouldBeAdded(position: Position, diameter: real, superShouldBeAdded: bool): (r: bool)
      ensures r <==> IsWithinBoundaries(width, height, position, diameter) && superShouldBeAdded
    {
      IsWithinBoundaries(width, height, position, diameter) && superShouldBeAdded
    }

    /** `canNodeFitPosition`: the boundary check, then the continuous
        environment's own answer. */
    function CanNodeFitPosition(position: Position, diameter: real, superCanFit: bool): (r: bool)
      ensures r <==> IsWithinBoundaries(width, height, position, diameter) && superCanFit
    {
      IsWithinBoundaries(width, height, position, diameter) && superCanFit
    }
  }
}
