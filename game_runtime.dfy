/**
 * The `GameRuntime` class of the exported game: its entity list, physics
 * world, body registry, key map and frame-loop state, and the methods that
 * update them in place. Each method is proved to compute the corresponding
 * function of RuntimeLogic or Scene, and to keep the object invariant Valid().
 */
module GameRuntime {
  import opened Physics
  import opened Scene
  import opened RuntimeLogic

  class Runtime {
    const spec: GameSpec
    var entities: seq<RuntimeEntity>
    /** Matter's world: every body added since the last clear, in order. */
    var world: seq<Body>
    /** `this.bodies`: entity name -> index of its body in `world`. */
    var bodies: map<string, nat>
    var keys: map<string, bool>
    var isPlaying: bool
    var lastTime: real

    /**
     * Between frames: the registry is the one loading built and points into a
     * world of the bodies loading built (the dynamic ones moved, perhaps, but
     * all of the same shapes, and the static ones where loading put them);
     * the entities are the loaded ones (moved, perhaps, and with their flags
     * set); only players are grounded.
     */
    ghost predicate Valid()
      reads this
    {
      && bodies == LoadedRegistry(spec.entities)
      && Settled(LoadedWorld(spec.entities), world)
      && RegistryValid(bodies, world)
      && SameIdentities(LoadedEntities(spec.entities), entities)
      && GroundedOnlyPlayers(entities)
    }

    ghost function State(): Sim
      reads this
    {
      Sim(entities, world)
    }

    /** `new GameRuntime(canvas, spec)`: empty key map, not playing, scene loaded. */
    constructor (spec: GameSpec)
      ensures Valid() && this.spec == spec
      ensures entities == LoadedEntities(spec.entities)
      ensures world == LoadedWorld(spec.entities) && bodies == LoadedRegistry(spec.entities)
      ensures keys == map[] && !isPlaying && lastTime == 0.0
    {
      this.spec := spec;
      entities := [];
      world := [];
      bodies := map[];
      keys := map[];
      isPlaying := false;
      lastTime := 0.0;
      new;
      LoadEntities();
    }

    /**
     * `loadEntities()`: clear the entities, the registry and the world, then
     * resolve every specified entity in order, adding and registering a body
     * for each that declares a collider.
     */
    method LoadEntities()
      modifies this
      ensures Valid()
      ensures entities == LoadedEntities(spec.entities)
      ensures world == LoadedWorld(spec.entities) && bodies == LoadedRegistry(spec.entities)
      ensures keys == old(keys) && isPlaying == old(isPlaying) && lastTime == old(lastTime)
    {
      entities := [];
      bodies := map[];
      world := [];
      var specs := spec.entities;
      var i := 0;
      while i < |specs|
        invariant 0 <= i <= |specs|
        invariant entities == LoadedEntities(specs[..i])
        invariant world == LoadedWorld(specs[..i])
        invariant bodies == LoadedRegistry(specs[..i])
        invariant keys == old(keys) && isPlaying == old(isPlaying) && lastTime == old(lastTime)
      {
        LoadedPrefix(specs, i);
        var es := specs[i];
        var e := Resolve(es);
        if es.components.collider.Some? {
          bodies := bodies[es.name := |world|];
          world := world + [BodyOf(es)];
        }
        entities := entities + [e];
        i := i + 1;
      }
      assert specs[..i] == specs;
      LoadRegistry(specs);
    }

    /**
     * The `collisionStart` (grounded = true) and `collisionEnd` (grounded =
     * false) listener: for each pair, a player touching a ground or platform
     * entity gets its flag assigned. Every reload adds one more identical
     * listener; ContactsIdempotent shows that running it again changes nothing.
     */
    method OnCollision(pairs: seq<Pair>, grounded: bool)
      requires Valid()
      modifies this
      ensures Valid()
      ensures entities == Contacts(old(entities), pairs, grounded)
      ensures world == old(world) && bodies == old(bodies) && keys == old(keys)
      ensures isPlaying == old(isPlaying) && lastTime == old(lastTime)
    {
      ghost var before := entities;
      var k := 0;
      while k < |pairs|
        invariant 0 <= k <= |pairs|
        invariant entities == Contacts(before, pairs[..k], grounded)
        invariant world == old(world) && bodies == old(bodies) && keys == old(keys)
        invariant isPlaying == old(isPlaying) && lastTime == old(lastTime)
      {
        assert pairs[..k + 1][..k] == pairs[..k];
        var p := pairs[k];
        var a := Find(entities, p.labelA);
        var b := Find(entities, p.labelB);
        if Lands(entities, a, b) {
          entities := entities[a.value := entities[a.value].(isGrounded := grounded)];
        }
        if Lands(entities, b, a) {
          entities := entities[b.value := entities[b.value].(isGrounded := grounded)];
        }
        k := k + 1;
      }
      assert pairs[..k] == pairs;
      ContactsKeepInvariant(before, pairs, grounded);
    }

    /**
     * `update(dt)`: steer every player with a body from the keys, step the
     * engine by `dt * 1000` milliseconds (its contact listeners run during the
     * step), then copy each registered body's position and angle back.
     */
    method Update(dt: real, engine: Engine)
      requires Valid()
      modifies this
      ensures Valid()
      ensures State() == Frame(old(State()), bodies, keys, spec.gravity, engine, dt)
      ensures bodies == old(bodies) && keys == old(keys)
      ensures isPlaying == old(isPlaying) && lastTime == old(lastTime)
    {
      ghost var s0 := State();
      SteerPlayers();
      ControlKeepsInvariant(s0, bodies, keys, |s0.entities|);
      var out := engine(world, spec.gravity, dt * 1000.0);
      assert LegalStep(world, out.world);
      world := out.world;
      OnCollision(out.started, true);
      OnCollision(out.ended, false);
      ghost var ended := entities;
      CopyBodiesBack();
      SyncedMirrorsBodies(ended, world, bodies);
    }

    /** The first loop of `update`: velocities from the keys, for players with a body. */
    method SteerPlayers()
      requires RegistryValid(bodies, world)
      modifies this
      ensures RegistryValid(bodies, old(world))
      ensures State() == ControlAll(old(State()), bodies, keys, |old(entities)|)
      ensures bodies == old(bodies) && keys == old(keys)
      ensures isPlaying == old(isPlaying) && lastTime == old(lastTime)
    {
      ghost var s0 := Sim(entities, world);
      var i := 0;
      while i < |entities|
        invariant 0 <= i <= |entities| == |s0.entities|
        invariant RegistryValid(bodies, s0.world) && |world| == |s0.world|
        invariant Sim(entities, world) == ControlAll(s0, bodies, keys, i)
        invariant bodies == old(bodies) && keys == old(keys)
        invariant isPlaying == old(isPlaying) && lastTime == old(lastTime)
      {
        ghost var next := ControlOne(Sim(entities, world), bodies, keys, i);
        var e := entities[i];
        if e.hasInput && e.name in bodies {
          var h := bodies[e.name];
          var vx := 0.0;
          if LeftHeld(keys) {
            vx := -e.moveSpeed;
          }
          if RightHeld(keys) {
            vx := e.moveSpeed;
          }
          assert vx == HorizontalSpeed(keys, e.moveSpeed);
          world := world[h := world[h].(vx := vx * VelocityScale)];
          if JumpHeld(keys) && e.isGrounded {
            world := world[h := world[h].(vy := e.jumpForce * VelocityScale)];
            entities := entities[i := e.(isGrounded := false)];
          }
        }
        assert Sim(entities, world) == next;
        assert ControlAll(s0, bodies, keys, i + 1) == next;
        i := i + 1;
      }
    }

    /** The last loop of `update`: each entity with a body takes its position and angle. */
    method CopyBodiesBack()
      requires RegistryValid(bodies, world)
      modifies this
      ensures RegistryValid(bodies, world)
      ensures entities == Synced(old(entities), world, bodies)
      ensures world == old(world) && bodies == old(bodies) && keys == old(keys)
      ensures isPlaying == old(isPlaying) && lastTime == old(lastTime)
    {
      ghost var before := entities;
      var j := 0;
      while j < |entities|
        invariant 0 <= j <= |entities| == |before|
        invariant world == old(world) && bodies == old(bodies) && keys == old(keys)
        invariant isPlaying == old(isPlaying) && lastTime == old(lastTime)
        invariant forall k :: 0 <= k < j ==> entities[k] == SyncOne(before[k], world, bodies)
        invariant forall k :: j <= k < |entities| ==> entities[k] == before[k]
      {
        var e := entities[j];
        if e.name in bodies {
          var b := world[bodies[e.name]];
          entities := entities[j := e.(x := b.x, y := b.y, rotation := b.angle)];
        }
        j := j + 1;
      }
      assert entities == Synced(before, world, bodies);
    }

    /**
     * `loop()` for one animation frame at time `now` (milliseconds): nothing
     * at all while paused; otherwise advance by the elapsed time, clamped to
     * 0.1 s, and take `now` as the new anchor.
     */
    method Loop(now: real, engine: Engine)
      requires Valid()
      modifies this
      ensures Valid()
      ensures !old(isPlaying) ==> unchanged(this)
      ensures old(isPlaying) ==> (lastTime == now &&
        State() == Frame(old(State()), bodies, keys, spec.gravity, engine, FrameDelta(now, old(lastTime))))
      ensures isPlaying == old(isPlaying) && bodies == old(bodies) && keys == old(keys)
    {
      if !isPlaying {
        return;
      }
      var dt := FrameDelta(now, lastTime);
      lastTime := now;
      Update(dt, engine);
    }

    /**
     * `start()`: play, anchor the frame timing at `anchor`, and run the first
     * frame at `now`; resuming after a pause therefore never catches up on the
     * time spent paused.
     */
    method Start(anchor: real, now: real, engine: Engine)
      requires Valid()
      modifies this
      ensures Valid() && isPlaying && lastTime == now
      ensures State() == Frame(old(State()), bodies, keys, spec.gravity, engine, FrameDelta(now, anchor))
      ensures bodies == old(bodies) && keys == old(keys)
    {
      isPlaying := true;
      lastTime := anchor;
      Loop(now, engine);
    }

    /** `pause()`: stop playing; the scene stays exactly as it is. */
    method Pause()
      modifies this
      ensures !isPlaying
      ensures entities == old(entities) && world == old(world) && bodies == old(bodies)
      ensures keys == old(keys) && lastTime == old(lastTime)
    {
      isPlaying := false;
    }

    /** `reset()`: rebuild the scene from the specification; playing or not is left as it was. */
    method Reset()
      modifies this
      ensures Valid()
      ensures entities == LoadedEntities(spec.entities)
      ensures world == LoadedWorld(spec.entities) && bodies == LoadedRegistry(spec.entities)
      ensures isPlaying == old(isPlaying) && keys == old(keys) && lastTime == old(lastTime)
    {
      LoadEntities();
    }

    /** The `keydown` listener: the code now reads as pressed, every other code as before. */
    method KeyDown(code: string)
      modifies this`keys
      ensures keys == old(keys)[code := true]
      ensures Pressed(keys, code)
      ensures forall c :: c != code ==> Pressed(keys, c) == Pressed(old(keys), c)
    {
      keys := keys[code := true];
    }

    /** The `keyup` listener: the code now reads as released, every other code as before. */
    method KeyUp(code: string)
      modifies this`keys
      ensures keys == old(keys)[code := false]
      ensures !Pressed(keys, code)
      ensures forall c :: c != code ==> Pressed(keys, c) == Pressed(old(keys), c)
    {
      keys := keys[code := false];
    }
  }
}
