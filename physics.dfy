/**
 * The physics engine (Matter.js) seen from the game runtime: rigid bodies held
 * by value in the world, the contact pairs an engine step reports, and an
 * abstract step function. Integration, collision detection and gravity are the
 * engine's own business; a step is only required to keep the world's shape and
 * to leave static bodies where they are.
 */
module Physics {

  /** A rectangular rigid body as the runtime reads and writes it. */
  datatype Body = Body(
    name: string,    // Matter's `label`: the owning entity's name
    x: real, y: real,
    vx: real, vy: real,
    angle: real,
    width: real, height: real,
    isStatic: bool)

  datatype Vec = Vec(x: real, y: real)

  /** A contact pair, named by the labels of its two bodies. */
  datatype Pair = Pair(labelA: string, labelB: string)

  /**
   * What one `Engine.update` call produces: the stepped world and the pairs
   * reported to the `collisionStart` and `collisionEnd` listeners, which the
   * engine fires in that order during the step.
   */
  datatype StepOutcome = StepOutcome(world: seq<Body>, started: seq<Pair>, ended: seq<Pair>)

  /** A body the engine may have moved keeps its identity, shape and kind. */
  predicate SameBodyShape(b: Body, c: Body) {
    c.name == b.name && c.width == b.width && c.height == b.height && c.isStatic == b.isStatic
  }

  /** Standing at the same position with the same angle. */
  predicate SamePlace(b: Body, c: Body) {
    c.x == b.x && c.y == b.y && c.angle == b.angle
  }

  /**
   * `after` holds the bodies of `before`, in order, with the same identities
   * and shapes, and every static one still where it stood.
   */
  predicate Settled(before: seq<Body>, after: seq<Body>) {
    |after| == |before| &&
    forall h :: 0 <= h < |before| ==>
      SameBodyShape(before[h], after[h]) && (before[h].isStatic ==> SamePlace(before[h], after[h]))
  }

  /**
   * A legal engine step: the same bodies in the same order; dynamic bodies may
   * move, turn and change speed, static bodies do not change at all.
   */
  predicate LegalStep(before: seq<Body>, after: seq<Body>) {
    |after| == |before| &&
    forall i :: 0 <= i < |before| ==>
      SameBodyShape(before[i], after[i]) && (before[i].isStatic ==> after[i] == before[i])
  }

  /** `Engine.update(engine, deltaMs)` over a world with the given gravity. */
  type Engine = step: (seq<Body>, Vec, real) -> StepOutcome
    | forall w, g, ms :: LegalStep(w, step(w, g, ms).world)
    witness (w: seq<Body>, g: Vec, ms: real) => StepOutcome(w, [], [])
}
