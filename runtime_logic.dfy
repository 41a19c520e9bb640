/**
 * The per-frame logic of the game runtime, as functions over its state: the
 * grounding rule driven by contact pairs, the input-to-velocity rule, the copy
 * of body positions back into the runtime entities, and the clamped frame time.
 * The class in GameRuntime runs these as loops; each of its methods is proved
 * to compute the function defined here.
 */
module RuntimeLogic {
  import opened Wrappers
  import opened Physics
  import opened Scene

  /* ---------------- Looking entities up ---------------- */

  /** `entities.find(e => e.name === name)`: the index of the first entity with that name. */
  function Find(entities: seq<RuntimeEntity>, name: string): (r: Option<nat>)
    ensures r.Some? ==> (r.value < |entities| && entities[r.value].name == name &&
      forall k :: 0 <= k < r.value ==> entities[k].name != name)
    ensures r.None? ==> forall k :: 0 <= k < |entities| ==> entities[k].name != name
  {
    if entities == [] then None
    else if entities[0].name == name then Some(0)
    else
      var r := Find(entities[1..], name);
      if r.Some? then Some(r.value + 1) else None
  }

  /** Only names are consulted, so lists with the same names find the same index. */
  lemma {:induction false} FindByNames(a: seq<RuntimeEntity>, b: seq<RuntimeEntity>, name: string)
    requires |a| == |b| && forall i :: 0 <= i < |a| ==> a[i].name == b[i].name
    ensures Find(a, name) == Find(b, name)
  {
    if a != [] {
      FindByNames(a[1..], b[1..], name);
    }
  }

  /* ---------------- Grounding ---------------- */

  /** Tagged `ground` or `platform`: a surface a player can stand on. */
  predicate Supports(e: RuntimeEntity) {
    "ground" in e.tags || "platform" in e.tags
  }

  /**
   * `a?.hasInput && (b?.tags?.includes('ground') || b?.tags?.includes('platform'))`:
   * the entity found as `a` is player-controlled and rests against the one found as `b`.
   */
  predicate Lands(entities: seq<RuntimeEntity>, a: Option<nat>, b: Option<nat>) {
    a.Some? && a.value < |entities| && entities[a.value].hasInput &&
    b.Some? && b.value < |entities| && Supports(entities[b.value])
  }

  function SetGrounded(entities: seq<RuntimeEntity>, i: nat, grounded: bool): seq<RuntimeEntity>
    requires i < |entities|
  {
    entities[i := entities[i].(isGrounded := grounded)]
  }

  /**
   * One contact pair as the `collisionStart` (grounded = true) or `collisionEnd`
   * (grounded = false) listener handles it: each side that is a player resting
   * against the other side gets its flag assigned.
   */
  function ContactPair(entities: seq<RuntimeEntity>, p: Pair, grounded: bool): (r: seq<RuntimeEntity>)
    ensures |r| == |entities|
  {
    var a := Find(entities, p.labelA);
    var b := Find(entities, p.labelB);
    var first := if Lands(entities, a, b) then SetGrounded(entities, a.value, grounded) else entities;
    if Lands(first, b, a) then SetGrounded(first, b.value, grounded) else first
  }

  /** The listener's loop over all pairs of one event, in order. */
  function Contacts(entities: seq<RuntimeEntity>, pairs: seq<Pair>, grounded: bool): (r: seq<RuntimeEntity>)
    ensures |r| == |entities|
  {
    if pairs == [] then entities
    else ContactPair(Contacts(entities, pairs[..|pairs| - 1], grounded), pairs[|pairs| - 1], grounded)
  }

  /** Everything about an entity except its position, rotation and grounded flag. */
  predicate SameIdentity(e: RuntimeEntity, f: RuntimeEntity) {
    e.name == f.name && e.width == f.width && e.height == f.height && e.color == f.color &&
    e.hasInput == f.hasInput && e.moveSpeed == f.moveSpeed && e.jumpForce == f.jumpForce &&
    e.tags == f.tags
  }

  predicate SameIdentities(a: seq<RuntimeEntity>, b: seq<RuntimeEntity>) {
    |a| == |b| && forall i :: 0 <= i < |a| ==> SameIdentity(a[i], b[i])
  }

  /** Whether pair `p` assigns the grounded flag of entity `i`. */
  predicate Touches(entities: seq<RuntimeEntity>, p: Pair, i: int) {
    var a := Find(entities, p.labelA);
    var b := Find(entities, p.labelB);
    (a == Some(i) && Lands(entities, a, b)) || (b == Some(i) && Lands(entities, b, a))
  }

  /** Whether some pair of an event assigns the grounded flag of entity `i`. */
  predicate Touched(entities: seq<RuntimeEntity>, pairs: seq<Pair>, i: int) {
    exists k :: 0 <= k < |pairs| && Touches(entities, pairs[k], i)
  }

  lemma TouchedSplit(entities: seq<RuntimeEntity>, pairs: seq<Pair>, i: int)
    requires pairs != []
    ensures Touched(entities, pairs, i) <==>
      Touched(entities, pairs[..|pairs| - 1], i) || Touches(entities, pairs[|pairs| - 1], i)
  {
    var init := pairs[..|pairs| - 1];
    if Touched(entities, pairs, i) {
      var k :| 0 <= k < |pairs| && Touches(entities, pairs[k], i);
      if k < |init| {
        assert init[k] == pairs[k];
      }
    }
    if Touched(entities, init, i) {
      var k :| 0 <= k < |init| && Touches(entities, init[k], i);
      assert init[k] == pairs[k];
    }
  }

  /** The invariant of the grounding state machine: only players are ever grounded. */
  predicate GroundedOnlyPlayers(entities: seq<RuntimeEntity>) {
    forall i :: 0 <= i < |entities| && entities[i].isGrounded ==> entities[i].hasInput
  }

  /**
   * A contact pair assigns `grounded` to exactly the entities it touches, where
   * touching is decided on names, input and tags alone; nothing else changes.
   */
  lemma ContactPairEffect(entities: seq<RuntimeEntity>, p: Pair, grounded: bool)
    ensures var r := ContactPair(entities, p, grounded);
      && |r| == |entities|
      && forall i :: 0 <= i < |entities| ==>
           r[i] == entities[i].(isGrounded := if Touches(entities, p, i) then grounded else entities[i].isGrounded)
  {
    var a := Find(entities, p.labelA);
    var b := Find(entities, p.labelB);
    var first := if Lands(entities, a, b) then SetGrounded(entities, a.value, grounded) else entities;
    assert SameIdentities(entities, first);
    FindByNames(entities, first, p.labelA);
    FindByNames(entities, first, p.labelB);
  }

  /**
   * After all pairs of an event, an entity's flag is `grounded` when some pair
   * touched it and unchanged otherwise; every other field is unchanged.
   */
  lemma {:induction false} ContactsEffect(entities: seq<RuntimeEntity>, pairs: seq<Pair>, grounded: bool)
    ensures forall i :: 0 <= i < |entities| ==>
      Contacts(entities, pairs, grounded)[i] ==
        entities[i].(isGrounded := if Touched(entities, pairs, i) then grounded else entities[i].isGrounded)
  {
    if pairs != [] {
      var init := pairs[..|pairs| - 1];
      var last := pairs[|pairs| - 1];
      ContactsEffect(entities, init, grounded);
      var mid := Contacts(entities, init, grounded);
      ContactPairEffect(mid, last, grounded);
      assert SameIdentities(entities, mid);
      FindByNames(entities, mid, last.labelA);
      FindByNames(entities, mid, last.labelB);
      forall i | 0 <= i < |entities|
        ensures Contacts(entities, pairs, grounded)[i] ==
          entities[i].(isGrounded := if Touched(entities, pairs, i) then grounded else entities[i].isGrounded)
      {
        assert Touches(mid, last, i) == Touches(entities, last, i);
        TouchedSplit(entities, pairs, i);
      }
    }
  }

  /** Only players' flags ever change, so the invariant survives any contact event. */
  lemma ContactsKeepInvariant(entities: seq<RuntimeEntity>, pairs: seq<Pair>, grounded: bool)
    requires GroundedOnlyPlayers(entities)
    ensures GroundedOnlyPlayers(Contacts(entities, pairs, grounded))
    ensures SameIdentities(entities, Contacts(entities, pairs, grounded))
  {
    ContactsEffect(entities, pairs, grounded);
    var r := Contacts(entities, pairs, grounded);
    forall i | 0 <= i < |entities| && r[i].isGrounded ensures r[i].hasInput {
      if Touched(entities, pairs, i) && grounded {
        var k :| 0 <= k < |pairs| && Touches(entities, pairs[k], i);
      }
    }
  }

  /**
   * Handling an event's pairs twice gives the same entities as handling them
   * once, so the extra listener pair that every reload registers changes nothing.
   */
  lemma ContactsIdempotent(entities: seq<RuntimeEntity>, pairs: seq<Pair>, grounded: bool)
    ensures Contacts(Contacts(entities, pairs, grounded), pairs, grounded) == Contacts(entities, pairs, grounded)
  {
    var once := Contacts(entities, pairs, grounded);
    ContactsEffect(entities, pairs, grounded);
    ContactsEffect(once, pairs, grounded);
    assert SameIdentities(entities, once);
    forall i | 0 <= i < |entities| ensures Touched(once, pairs, i) == Touched(entities, pairs, i) {
      TouchedByNames(entities, once, pairs, i);
    }
  }

  /** Touching depends on names, input and tags only. */
  lemma TouchedByNames(a: seq<RuntimeEntity>, b: seq<RuntimeEntity>, pairs: seq<Pair>, i: int)
    requires SameIdentities(a, b)
    ensures Touched(a, pairs, i) == Touched(b, pairs, i)
  {
    forall k | 0 <= k < |pairs| ensures Touches(a, pairs[k], i) == Touches(b, pairs[k], i) {
      FindByNames(a, b, pairs[k].labelA);
      FindByNames(a, b, pairs[k].labelB);
    }
  }

  /** The order of the two bodies in a pair does not matter. */
  lemma PairOrderIrrelevant(entities: seq<RuntimeEntity>, a: string, b: string, grounded: bool)
    ensures ContactPair(entities, Pair(a, b), grounded) == ContactPair(entities, Pair(b, a), grounded)
  {
    ContactPairEffect(entities, Pair(a, b), grounded);
    ContactPairEffect(entities, Pair(b, a), grounded);
  }

  /**
   * A contact between a player and a ground or platform entity (the first of
   * each name) grounds the player on contact-begin and unsets it on contact-end.
   */
  lemma PlayerOnSupport(entities: seq<RuntimeEntity>, p: Pair, grounded: bool)
    requires var a := Find(entities, p.labelA); var b := Find(entities, p.labelB);
      a.Some? && b.Some? && entities[a.value].hasInput && Supports(entities[b.value])
    ensures Contacts(entities, [p], grounded)[Find(entities, p.labelA).value].isGrounded == grounded
  {
    assert [p][..0] == [];
    ContactPairEffect(entities, p, grounded);
    assert Touches(entities, p, Find(entities, p.labelA).value);
  }

  /* ---------------- Keyboard ---------------- */

  /** `keys.get(code)`: a code never seen reads as not pressed. */
  predicate Pressed(keys: map<string, bool>, code: string) {
    code in keys && keys[code]
  }

  predicate LeftHeld(keys: map<string, bool>) {
    Pressed(keys, "ArrowLeft") || Pressed(keys, "KeyA")
  }

  predicate RightHeld(keys: map<string, bool>) {
    Pressed(keys, "ArrowRight") || Pressed(keys, "KeyD")
  }

  predicate JumpHeld(keys: map<string, bool>) {
    Pressed(keys, "Space") || Pressed(keys, "ArrowUp") || Pressed(keys, "KeyW")
  }

  /**
   * The horizontal speed `update` derives: `vx = 0`, then `-moveSpeed` if left
   * is held, then `moveSpeed` if right is held, so right wins over left.
   */
  function HorizontalSpeed(keys: map<string, bool>, moveSpeed: real): (vx: real)
    ensures RightHeld(keys) ==> vx == moveSpeed
    ensures !RightHeld(keys) && LeftHeld(keys) ==> vx == -moveSpeed
    ensures !RightHeld(keys) && !LeftHeld(keys) ==> vx == 0.0
  {
    var vx := if LeftHeld(keys) then -moveSpeed else 0.0;
    if RightHeld(keys) then moveSpeed else vx
  }

  /** Matter.js velocities are per engine tick: the runtime scales speeds by 0.01. */
  const VelocityScale: real := 0.01

  /* ---------------- Input and jump ---------------- */

  /** The entities and the physics world, the part of the runtime a frame updates. */
  datatype Sim = Sim(entities: seq<RuntimeEntity>, world: seq<Body>)

  /**
   * The `update` loop's body for entity `i`: a player with a registered body
   * gets its horizontal velocity from the keys (vertical kept), and if jump is
   * held while grounded, the jump force as vertical velocity and its flag cleared.
   */
  function ControlOne(s: Sim, registry: map<string, nat>, keys: map<string, bool>, i: nat): (r: Sim)
    requires i < |s.entities| && RegistryValid(registry, s.world)
    ensures |r.entities| == |s.entities| && |r.world| == |s.world|
  {
    var e := s.entities[i];
    if !e.hasInput || e.name !in registry then s
    else
      var h := registry[e.name];
      var moved := s.world[h].(vx := HorizontalSpeed(keys, e.moveSpeed) * VelocityScale);
      if JumpHeld(keys) && e.isGrounded then
        Sim(s.entities[i := e.(isGrounded := false)], s.world[h := moved.(vy := e.jumpForce * VelocityScale)])
      else
        Sim(s.entities, s.world[h := moved])
  }

  /** The first `n` iterations of the input loop. */
  function ControlAll(s: Sim, registry: map<string, nat>, keys: map<string, bool>, n: nat): (r: Sim)
    requires n <= |s.entities| && RegistryValid(registry, s.world)
    ensures |r.entities| == |s.entities| && |r.world| == |s.world|
  {
    if n == 0 then s else ControlOne(ControlAll(s, registry, keys, n - 1), registry, keys, n - 1)
  }

  /** Distinct names have distinct bodies. */
  predicate Injective(registry: map<string, nat>) {
    forall m, n :: m in registry && n in registry && m != n ==> registry[m] != registry[n]
  }

  predicate UniqueEntityNames(entities: seq<RuntimeEntity>) {
    forall i, j :: 0 <= i < j < |entities| ==> entities[i].name != entities[j].name
  }

  /** Whether entity `e` is a player whose velocity `update` sets. */
  predicate Controlled(e: RuntimeEntity, registry: map<string, nat>) {
    e.hasInput && e.name in registry
  }

  /** Whether body `h` belongs to a controlled entity among the first `n`. */
  predicate ControlledBody(entities: seq<RuntimeEntity>, registry: map<string, nat>, n: int, h: int) {
    exists j :: 0 <= j < n && j < |entities| && Controlled(entities[j], registry) && registry[entities[j].name] == h
  }

  /** Whether entity `e`, processed by the input loop, jumps. */
  predicate Jumps(e: RuntimeEntity, registry: map<string, nat>, keys: map<string, bool>) {
    Controlled(e, registry) && JumpHeld(keys) && e.isGrounded
  }

  /**
   * The input loop changes no entity but the players that jump, whose
   * grounded flag it clears; the `n` first entities have been processed.
   */
  lemma {:induction false} ControlAllEntities(s: Sim, registry: map<string, nat>, keys: map<string, bool>, n: nat)
    requires n <= |s.entities| && RegistryValid(registry, s.world)
    ensures forall i :: 0 <= i < |s.entities| ==>
      ControlAll(s, registry, keys, n).entities[i] ==
        s.entities[i].(isGrounded := s.entities[i].isGrounded && !(i < n && Jumps(s.entities[i], registry, keys)))
  {
    if n > 0 {
      ControlAllEntities(s, registry, keys, n - 1);
    }
  }

  /** The body the input loop would write for a player `e` whose body currently is `b`. */
  function Steered(e: RuntimeEntity, b: Body, keys: map<string, bool>): Body {
    b.(vx := HorizontalSpeed(keys, e.moveSpeed) * VelocityScale,
       vy := if JumpHeld(keys) && e.isGrounded then e.jumpForce * VelocityScale else b.vy)
  }

  /**
   * With distinct names and distinct bodies, the input loop leaves every body
   * of a processed player steered by the keys from its state before the
   * frame, and every other body untouched.
   */
  lemma {:induction false} ControlAllWorld(s: Sim, registry: map<string, nat>, keys: map<string, bool>, n: nat)
    requires n <= |s.entities| && RegistryValid(registry, s.world)
    requires Injective(registry) && UniqueEntityNames(s.entities)
    ensures forall h :: 0 <= h < |s.world| ==>
      ControlAll(s, registry, keys, n).world[h] ==
        if ControlledBody(s.entities, registry, n, h) then Steered(s.entities[OwnerOf(s.entities, registry, n, h)], s.world[h], keys)
        else s.world[h]
  {
    if n > 0 {
      var k := n - 1;
      ControlAllWorld(s, registry, keys, k);
      ControlAllEntities(s, registry, keys, k);
      var mid := ControlAll(s, registry, keys, k);
      var e := s.entities[k];
      assert mid.entities[k] == e;
      forall h | 0 <= h < |s.world|
        ensures ControlAll(s, registry, keys, n).world[h] ==
          if ControlledBody(s.entities, registry, n, h) then Steered(s.entities[OwnerOf(s.entities, registry, n, h)], s.world[h], keys)
          else s.world[h]
      {
        if Controlled(e, registry) && registry[e.name] == h {
          forall j | 0 <= j < k && Controlled(s.entities[j], registry)
            ensures registry[s.entities[j].name] != h
          {
            assert s.entities[j].name != e.name;
          }
          OwnerIs(s.entities, registry, n, h, k);
        } else {
          assert ControlledBody(s.entities, registry, n, h) == ControlledBody(s.entities, registry, k, h);
          if ControlledBody(s.entities, registry, k, h) {
            var j :| 0 <= j < k && Controlled(s.entities[j], registry) && registry[s.entities[j].name] == h;
            OwnerIs(s.entities, registry, k, h, j);
            OwnerIs(s.entities, registry, n, h, j);
          }
        }
      }
    }
  }

  /** The processed player that owns body `h`. */
  ghost function OwnerOf(entities: seq<RuntimeEntity>, registry: map<string, nat>, n: int, h: int): (j: nat)
    requires ControlledBody(entities, registry, n, h)
    ensures j < n && j < |entities| && Controlled(entities[j], registry) && registry[entities[j].name] == h
  {
    var j :| 0 <= j < n && j < |entities| && Controlled(entities[j], registry) && registry[entities[j].name] == h;
    j
  }

  /** With distinct names and distinct bodies, a body has one owner. */
  lemma OwnerIs(entities: seq<RuntimeEntity>, registry: map<string, nat>, n: int, h: int, j: nat)
    requires Injective(registry) && UniqueEntityNames(entities)
    requires j < n && j < |entities| && Controlled(entities[j], registry) && registry[entities[j].name] == h
    ensures ControlledBody(entities, registry, n, h) && OwnerOf(entities, registry, n, h) == j
  {
    var o := OwnerOf(entities, registry, n, h);
    assert entities[o].name == entities[j].name;
  }

  /**
   * What the whole input loop does to a player with a body, given distinct
   * names: the body's horizontal velocity becomes `±moveSpeed * 0.01` (right
   * wins); its vertical velocity becomes `jumpForce * 0.01` when jump is held
   * and the player is grounded, and is kept otherwise; jumping clears the flag.
   */
  lemma PlayerControl(s: Sim, registry: map<string, nat>, keys: map<string, bool>, i: nat)
    requires RegistryValid(registry, s.world) && Injective(registry) && UniqueEntityNames(s.entities)
    requires i < |s.entities| && Controlled(s.entities[i], registry)
    ensures var e := s.entities[i];
      var r := ControlAll(s, registry, keys, |s.entities|);
      var h := registry[e.name];
      && r.world[h].vx == HorizontalSpeed(keys, e.moveSpeed) * VelocityScale
      && r.world[h].vy == (if JumpHeld(keys) && e.isGrounded then e.jumpForce * VelocityScale else s.world[h].vy)
      && r.world[h].x == s.world[h].x && r.world[h].y == s.world[h].y
      && r.entities[i].isGrounded == (e.isGrounded && !JumpHeld(keys))
  {
    var n := |s.entities|;
    ControlAllWorld(s, registry, keys, n);
    ControlAllEntities(s, registry, keys, n);
    OwnerIs(s.entities, registry, n, registry[s.entities[i].name], i);
  }

  /**
   * The input loop only ever clears flags, so the grounding invariant
   * survives it; it sets velocities only, so no body moves or turns.
   */
  lemma {:induction false} ControlKeepsInvariant(s: Sim, registry: map<string, nat>, keys: map<string, bool>, n: nat)
    requires n <= |s.entities| && RegistryValid(registry, s.world)
    requires GroundedOnlyPlayers(s.entities)
    ensures GroundedOnlyPlayers(ControlAll(s, registry, keys, n).entities)
    ensures SameIdentities(s.entities, ControlAll(s, registry, keys, n).entities)
    ensures forall h :: 0 <= h < |s.world| ==>
      SameBodyShape(s.world[h], ControlAll(s, registry, keys, n).world[h]) &&
      SamePlace(s.world[h], ControlAll(s, registry, keys, n).world[h])
  {
    if n > 0 {
      ControlKeepsInvariant(s, registry, keys, n - 1);
    }
  }

  /* ---------------- Copying bodies back ---------------- */

  /** After the step, an entity with a body takes the body's position and angle. */
  function SyncOne(e: RuntimeEntity, world: seq<Body>, registry: map<string, nat>): RuntimeEntity
    requires RegistryValid(registry, world)
  {
    if e.name in registry then
      var b := world[registry[e.name]];
      e.(x := b.x, y := b.y, rotation := b.angle)
    else e
  }

  /** The post-step loop over all entities. */
  function Synced(entities: seq<RuntimeEntity>, world: seq<Body>, registry: map<string, nat>): (r: seq<RuntimeEntity>)
    requires RegistryValid(registry, world)
    ensures |r| == |entities|
  {
    seq(|entities|, i requires 0 <= i < |entities| => SyncOne(entities[i], world, registry))
  }

  /**
   * After the copy, every entity with a registered body stands where its body
   * stands; entities without a body keep their position; nothing but position
   * and rotation changes, and copying again changes nothing.
   */
  lemma SyncedMirrorsBodies(entities: seq<RuntimeEntity>, world: seq<Body>, registry: map<string, nat>)
    requires RegistryValid(registry, world)
    ensures var r := Synced(entities, world, registry);
      && (forall i :: 0 <= i < |entities| && entities[i].name in registry ==>
            var b := world[registry[entities[i].name]];
            r[i].x == b.x && r[i].y == b.y && r[i].rotation == b.angle)
      && (forall i :: 0 <= i < |entities| && entities[i].name !in registry ==> r[i] == entities[i])
      && (forall i :: 0 <= i < |entities| ==> r[i] == entities[i].(x := r[i].x, y := r[i].y, rotation := r[i].rotation))
      && Synced(r, world, registry) == r
      && SameIdentities(entities, r)
      && (GroundedOnlyPlayers(entities) ==> GroundedOnlyPlayers(r))
  {
  }

  /* ---------------- Frame timing ---------------- */

  /** Longest simulated time one frame may advance, in seconds. */
  const MaxFrameSeconds: real := 0.1

  /** `Math.min((now - lastTime) / 1000, 0.1)`, with times in milliseconds. */
  function FrameDelta(now: real, lastTime: real): (dt: real)
    ensures dt <= MaxFrameSeconds
    ensures dt <= (now - lastTime) / 1000.0
    ensures dt == MaxFrameSeconds || dt == (now - lastTime) / 1000.0
  {
    var elapsed := (now - lastTime) / 1000.0;
    if elapsed < MaxFrameSeconds then elapsed else MaxFrameSeconds
  }

  /* ---------------- One frame ---------------- */

  /**
   * The whole of `update(dt)`: the input loop, `Engine.update(engine, dt * 1000)`
   * with its `collisionStart` then `collisionEnd` listeners, then the copy back.
   */
  function Frame(s: Sim, registry: map<string, nat>, keys: map<string, bool>, gravity: Vec, engine: Engine, dt: real): (r: Sim)
    requires RegistryValid(registry, s.world)
    ensures |r.entities| == |s.entities| && |r.world| == |s.world|
  {
    var c := ControlAll(s, registry, keys, |s.entities|);
    var out := engine(c.world, gravity, dt * 1000.0);
    var begun := Contacts(c.entities, out.started, true);
    var ended := Contacts(begun, out.ended, false);
    Sim(Synced(ended, out.world, registry), out.world)
  }

  /**
   * A frame keeps the grounding invariant and every entity's identity, keeps
   * the world's bodies (same names, sizes and kinds, static ones unmoved), and
   * leaves each entity with a body mirroring it.
   */
  lemma FrameKeepsInvariants(s: Sim, registry: map<string, nat>, keys: map<string, bool>, gravity: Vec, engine: Engine, dt: real)
    requires RegistryValid(registry, s.world) && GroundedOnlyPlayers(s.entities)
    ensures var r := Frame(s, registry, keys, gravity, engine, dt);
      && GroundedOnlyPlayers(r.entities)
      && SameIdentities(s.entities, r.entities)
      && RegistryValid(registry, r.world)
      && Settled(s.world, r.world)
      && (forall i :: 0 <= i < |r.entities| && r.entities[i].name in registry ==>
            r.entities[i].x == r.world[registry[r.entities[i].name]].x &&
            r.entities[i].y == r.world[registry[r.entities[i].name]].y)
  {
    var c := ControlAll(s, registry, keys, |s.entities|);
    ControlKeepsInvariant(s, registry, keys, |s.entities|);
    var out := engine(c.world, gravity, dt * 1000.0);
    assert LegalStep(c.world, out.world);
    var begun := Contacts(c.entities, out.started, true);
    ContactsKeepInvariant(c.entities, out.started, true);
    var ended := Contacts(begun, out.ended, false);
    ContactsKeepInvariant(begun, out.ended, false);
    SyncedMirrorsBodies(ended, out.world, registry);
  }
}
