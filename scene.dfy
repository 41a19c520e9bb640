/**
 * The scene interpreter of the exported game runtime (`loadEntities`): a game
 * specification's entity list is resolved, with defaults, into render-facing
 * runtime entities, and every entity that declares a collider gets a
 * rectangular body in the physics world, registered under the entity's name.
 */
module Scene {
  import opened Wrappers
  import opened Hex
  import opened Physics

  /* ---------------- The game specification (input) ---------------- */

  datatype Transform = Transform(x: Option<real>, y: Option<real>, rotation: Option<real>)
  datatype Sprite = Sprite(width: Option<real>, height: Option<real>, tint: Option<nat>)
  datatype Velocity = Velocity(vx: Option<real>, vy: Option<real>)
  datatype Collider = Collider(width: Option<real>, height: Option<real>)
  datatype InputComponent = InputComponent(moveSpeed: Option<real>, jumpForce: Option<real>)

  /** The optional-component bag of an entity; components the runtime ignores are left out. */
  datatype Components = Components(
    transform: Option<Transform>,
    sprite: Option<Sprite>,
    velocity: Option<Velocity>,
    collider: Option<Collider>,
    input: Option<InputComponent>)

  datatype EntitySpec = EntitySpec(name: string, tags: Option<seq<string>>, components: Components)

  datatype GameSpec = GameSpec(gravity: Vec, entities: seq<EntitySpec>)

  /* ---------------- The runtime entity (derived) ---------------- */

  datatype RuntimeEntity = RuntimeEntity(
    name: string,
    x: real, y: real, rotation: real,
    width: real, height: real,
    color: string,
    hasInput: bool,
    moveSpeed: real, jumpForce: real,
    tags: seq<string>,
    isGrounded: bool)

  const DefaultSize: real := 32.0
  const DefaultTint: nat := 0x808080
  const DefaultMoveSpeed: real := 200.0
  const DefaultJumpForce: real := -400.0

  /**
   * JavaScript's `value || fallback` for a number that may be absent: an
   * absent value and a present zero (falsy) both give the fallback.
   */
  function OrNumber(value: Option<real>, fallback: real): (r: real)
    ensures value.None? || value == Some(0.0) ==> r == fallback
    ensures value.Some? && value.value != 0.0 ==> r == value.value
  {
    if value.Some? && value.value != 0.0 then value.value else fallback
  }

  /** The same for the integer tint. */
  function OrTint(value: Option<nat>, fallback: nat): (r: nat)
    ensures value.None? || value == Some(0) ==> r == fallback
    ensures value.Some? && value.value != 0 ==> r == value.value
  {
    if value.Some? && value.value != 0 then value.value else fallback
  }

  /** `'#' + tint.toString(16).padStart(6, '0')` with the tint defaulting to mid-grey. */
  function ColorOf(sprite: Option<Sprite>): string {
    "#" + PadStart(ToHex(EffectiveTint(sprite)), 6, '0')
  }

  /** The tint a sprite actually shows: its own when non-zero, mid-grey otherwise. */
  function EffectiveTint(sprite: Option<Sprite>): (t: nat)
    ensures 0 < t
    ensures sprite.Some? && sprite.value.tint.Some? && sprite.value.tint.value != 0 ==> t == sprite.value.tint.value
    ensures !(sprite.Some? && sprite.value.tint.Some? && sprite.value.tint.value != 0) ==> t == DefaultTint
  {
    OrTint(if sprite.Some? then sprite.value.tint else None, DefaultTint)
  }

  /**
   * The colour string is '#' and then hexadecimal digits that read back as the
   * effective tint; it is exactly seven characters long whenever the tint fits
   * in 24 bits, and a longer one carries no padding zeros.
   */
  lemma ColorDenotesTint(sprite: Option<Sprite>)
    ensures var c := ColorOf(sprite);
      && |c| >= 7 && c[0] == '#'
      && AllHexDigits(c[1..])
      && Value(c[1..]) == EffectiveTint(sprite)
      && (EffectiveTint(sprite) < 0x1000000 <==> |c| == 7)
      && (|c| > 7 ==> c[1] != '0')
  {
    var t := EffectiveTint(sprite);
    PaddedHex(t);
    assert ColorOf(sprite)[1..] == PadStart(ToHex(t), 6, '0');
  }

  /** `transform?.x`, `transform?.y`, `transform?.rotation`: absent when the component is. */
  function TransformX(t: Option<Transform>): Option<real> {
    if t.Some? then t.value.x else None
  }

  function TransformY(t: Option<Transform>): Option<real> {
    if t.Some? then t.value.y else None
  }

  function TransformRotation(t: Option<Transform>): Option<real> {
    if t.Some? then t.value.rotation else None
  }

  function SpriteWidth(s: Option<Sprite>): Option<real> {
    if s.Some? then s.value.width else None
  }

  function SpriteHeight(s: Option<Sprite>): Option<real> {
    if s.Some? then s.value.height else None
  }

  function InputMoveSpeed(i: Option<InputComponent>): Option<real> {
    if i.Some? then i.value.moveSpeed else None
  }

  function InputJumpForce(i: Option<InputComponent>): Option<real> {
    if i.Some? then i.value.jumpForce else None
  }

  /** One entity of the specification, resolved into its runtime record. */
  function Resolve(es: EntitySpec): (e: RuntimeEntity)
    ensures e.name == es.name && !e.isGrounded
    ensures e.hasInput <==> es.components.input.Some?
    ensures e.width != 0.0 && e.height != 0.0 && e.moveSpeed != 0.0 && e.jumpForce != 0.0
    ensures e.x == OrNumber(TransformX(es.components.transform), 0.0)
    ensures e.y == OrNumber(TransformY(es.components.transform), 0.0)
    ensures e.rotation == OrNumber(TransformRotation(es.components.transform), 0.0)
    ensures e.width == OrNumber(SpriteWidth(es.components.sprite), DefaultSize)
    ensures e.height == OrNumber(SpriteHeight(es.components.sprite), DefaultSize)
    ensures e.color == ColorOf(es.components.sprite)
    ensures e.moveSpeed == OrNumber(InputMoveSpeed(es.components.input), DefaultMoveSpeed)
    ensures e.jumpForce == OrNumber(InputJumpForce(es.components.input), DefaultJumpForce)
    ensures e.tags == if es.tags.Some? then es.tags.value else []
  {
    var c := es.components;
    RuntimeEntity(
      name := es.name,
      x := OrNumber(TransformX(c.transform), 0.0),
      y := OrNumber(TransformY(c.transform), 0.0),
      rotation := OrNumber(TransformRotation(c.transform), 0.0),
      width := OrNumber(SpriteWidth(c.sprite), DefaultSize),
      height := OrNumber(SpriteHeight(c.sprite), DefaultSize),
      color := ColorOf(c.sprite),
      hasInput := c.input.Some?,
      moveSpeed := OrNumber(InputMoveSpeed(c.input), DefaultMoveSpeed),
      jumpForce := OrNumber(InputJumpForce(c.input), DefaultJumpForce),
      tags := if es.tags.Some? then es.tags.value else [],
      isGrounded := false)
  }

  /**
   * The defaults of the runtime record: without a transform an entity stands
   * at the origin, unrotated; without a sprite it is a 32 by 32 square
   * coloured "#808080"; without input it is not a player and carries speed
   * 200 and jump force -400; without tags it has none.
   */
  lemma ResolveDefaults(es: EntitySpec)
    ensures var e := Resolve(es);
      && (es.components.transform.None? ==> e.x == 0.0 && e.y == 0.0 && e.rotation == 0.0)
      && (es.components.sprite.None? ==> e.width == 32.0 && e.height == 32.0 && e.color == "#808080")
      && (es.components.input.None? ==> !e.hasInput && e.moveSpeed == 200.0 && e.jumpForce == -400.0)
      && (es.tags.None? ==> e.tags == [])
  {
    if es.components.sprite.None? {
      DefaultColor();
    }
  }

  /** The mid-grey default tint is written "#808080". */
  lemma DefaultColor()
    ensures ColorOf(None) == "#808080"
  {
    var t := EffectiveTint(None);
    assert t == 8421504;
    DefaultTintHex();
    assert PadStart("808080", 6, '0') == "808080";
  }

  /** `(0x808080).toString(16)`, one digit at a time. */
  lemma DefaultTintHex()
    ensures ToHex(8421504) == "808080"
  {
    var zero, eight := DigitChar(0), DigitChar(8);
    assert zero == '0' && eight == '8';
    assert ToHex(8) == "8";
    assert 128 / 16 == 8 && 128 % 16 == 0;
    assert ToHex(128) == "80";
    assert 2056 / 16 == 128 && 2056 % 16 == 8;
    assert ToHex(2056) == "808";
    assert 32896 / 16 == 2056 && 32896 % 16 == 0;
    assert ToHex(32896) == "8080";
    assert 526344 / 16 == 32896 && 526344 % 16 == 8;
    assert ToHex(526344) == "80808";
    assert 8421504 / 16 == 526344 && 8421504 % 16 == 0;
  }

  /**
   * `Matter.Bodies.rectangle(e.x, e.y, w, h, { isStatic, label })` for an
   * entity with a collider: at rest, unrotated, at the resolved position, sized
   * by the collider and otherwise by the resolved sprite size.
   */
  function BodyOf(es: EntitySpec): Body
    requires es.components.collider.Some?
  {
    var c := es.components;
    Body(
      name := es.name,
      x := OrNumber(TransformX(c.transform), 0.0),
      y := OrNumber(TransformY(c.transform), 0.0),
      vx := 0.0, vy := 0.0,
      angle := 0.0,
      width := OrNumber(c.collider.value.width, OrNumber(SpriteWidth(c.sprite), DefaultSize)),
      height := OrNumber(c.collider.value.height, OrNumber(SpriteHeight(c.sprite), DefaultSize)),
      isStatic := c.velocity.None? && c.input.None?)
  }

  /* ---------------- Loading ---------------- */

  /** Every registered handle points into the world. */
  predicate RegistryValid(registry: map<string, nat>, world: seq<Body>) {
    forall n :: n in registry ==> registry[n] < |world|
  }

  /** The entity list after loading: one resolved entity per specified one, in order. */
  function LoadedEntities(specs: seq<EntitySpec>): (es: seq<RuntimeEntity>)
    ensures |es| == |specs|
    ensures forall i :: 0 <= i < |specs| ==> es[i] == Resolve(specs[i]) && !es[i].isGrounded
  {
    seq(|specs|, i requires 0 <= i < |specs| => Resolve(specs[i]))
  }

  /** The physics world after loading: one body per collider-bearing entity, in order. */
  function LoadedWorld(specs: seq<EntitySpec>): seq<Body> {
    if specs == [] then []
    else
      var last := specs[|specs| - 1];
      var init := LoadedWorld(specs[..|specs| - 1]);
      if last.components.collider.Some? then init + [BodyOf(last)] else init
  }

  /** The body registry after loading: each collider-bearing entity's name maps to its body. */
  function LoadedRegistry(specs: seq<EntitySpec>): map<string, nat> {
    if specs == [] then map[]
    else
      var last := specs[|specs| - 1];
      var init := specs[..|specs| - 1];
      if last.components.collider.Some? then LoadedRegistry(init)[last.name := |LoadedWorld(init)|]
      else LoadedRegistry(init)
  }

  /** Loading one more entity extends the three parts as one loop iteration does. */
  lemma LoadedPrefix(specs: seq<EntitySpec>, i: nat)
    requires i < |specs|
    ensures LoadedEntities(specs[..i + 1]) == LoadedEntities(specs[..i]) + [Resolve(specs[i])]
    ensures LoadedWorld(specs[..i + 1]) ==
      if specs[i].components.collider.Some? then LoadedWorld(specs[..i]) + [BodyOf(specs[i])]
      else LoadedWorld(specs[..i])
    ensures LoadedRegistry(specs[..i + 1]) ==
      if specs[i].components.collider.Some? then LoadedRegistry(specs[..i])[specs[i].name := |LoadedWorld(specs[..i])|]
      else LoadedRegistry(specs[..i])
  {
    assert specs[..i + 1][..i] == specs[..i];
  }

  /** Whether spec `i` is the last one named `name` that declares a collider. */
  predicate LastColliderFor(specs: seq<EntitySpec>, i: int, name: string) {
    0 <= i < |specs| && specs[i].name == name && specs[i].components.collider.Some? &&
    forall j :: i < j < |specs| && specs[j].name == name ==> specs[j].components.collider.None?
  }

  predicate HasCollider(specs: seq<EntitySpec>, name: string) {
    exists i :: 0 <= i < |specs| && specs[i].name == name && specs[i].components.collider.Some?
  }

  /** No two specified entities share a name. */
  predicate UniqueNames(specs: seq<EntitySpec>) {
    forall i, j :: 0 <= i < j < |specs| ==> specs[i].name != specs[j].name
  }

  /** A body is built exactly where the resolved entity stands, with the entity's name. */
  lemma BodyMatchesEntity(es: EntitySpec)
    requires es.components.collider.Some?
    ensures var b := BodyOf(es); var e := Resolve(es);
      && b.name == e.name && b.x == e.x && b.y == e.y && b.angle == 0.0
      && b.width == OrNumber(es.components.collider.value.width, e.width)
      && b.height == OrNumber(es.components.collider.value.height, e.height)
      && (b.isStatic <==> !e.hasInput && es.components.velocity.None?)
  {
  }

  /**
   * The registry has an entry for a name exactly when some specified entity of
   * that name declares a collider; each entry is a distinct handle into the world.
   */
  lemma {:induction false} LoadRegistry(specs: seq<EntitySpec>)
    ensures RegistryValid(LoadedRegistry(specs), LoadedWorld(specs))
    ensures forall n :: n in LoadedRegistry(specs) <==> HasCollider(specs, n)
    ensures forall m, n :: m in LoadedRegistry(specs) && n in LoadedRegistry(specs) && m != n ==>
      LoadedRegistry(specs)[m] != LoadedRegistry(specs)[n]
  {
    if specs != [] {
      var init := specs[..|specs| - 1];
      var last := specs[|specs| - 1];
      LoadRegistry(init);
      forall n ensures n in LoadedRegistry(specs) <==> HasCollider(specs, n) {
        if HasCollider(init, n) {
          var i :| 0 <= i < |init| && init[i].name == n && init[i].components.collider.Some?;
          assert specs[i] == init[i];
        }
        if HasCollider(specs, n) && n != last.name {
          var i :| 0 <= i < |specs| && specs[i].name == n && specs[i].components.collider.Some?;
          assert i < |init| && init[i] == specs[i];
        }
      }
    }
  }

  /**
   * The body registered under a name is the one built for the LAST specified
   * entity of that name that declares a collider (a later one overwrites the
   * registry entry; the earlier body stays in the world).
   */
  lemma {:induction false} LoadBodies(specs: seq<EntitySpec>)
    ensures forall n, i :: LastColliderFor(specs, i, n) ==>
      n in LoadedRegistry(specs) && LoadedRegistry(specs)[n] < |LoadedWorld(specs)| &&
      LoadedWorld(specs)[LoadedRegistry(specs)[n]] == BodyOf(specs[i])
  {
    if specs != [] {
      var init := specs[..|specs| - 1];
      var last := specs[|specs| - 1];
      LoadBodies(init);
      LoadRegistry(init);
      forall n, i | LastColliderFor(specs, i, n)
        ensures n in LoadedRegistry(specs) && LoadedRegistry(specs)[n] < |LoadedWorld(specs)|
        ensures LoadedWorld(specs)[LoadedRegistry(specs)[n]] == BodyOf(specs[i])
      {
        if i < |specs| - 1 {
          assert n != last.name || last.components.collider.None?;
          assert LastColliderFor(init, i, n);
        }
      }
    }
  }

  /**
   * With unique names, every entity that declares a collider has its own body,
   * static exactly when it has neither velocity nor input, sized by the
   * collider and otherwise by the resolved sprite, placed at the resolved
   * position; entities without a collider have none.
   */
  lemma BodyRegistry(specs: seq<EntitySpec>, i: int)
    requires UniqueNames(specs) && 0 <= i < |specs|
    ensures var R := LoadedRegistry(specs); var es := specs[i]; var e := LoadedEntities(specs)[i];
      && (es.name in R <==> es.components.collider.Some?)
      && (es.components.collider.Some? ==>
            R[es.name] < |LoadedWorld(specs)| &&
            var b := LoadedWorld(specs)[R[es.name]];
            && b.name == e.name && b.x == e.x && b.y == e.y
            && (b.isStatic <==> es.components.velocity.None? && es.components.input.None?)
            && b.width == OrNumber(es.components.collider.value.width, e.width)
            && b.height == OrNumber(es.components.collider.value.height, e.height))
  {
    LoadRegistry(specs);
    LoadBodies(specs);
    var n := specs[i].name;
    if HasCollider(specs, n) {
      var j :| 0 <= j < |specs| && specs[j].name == n && specs[j].components.collider.Some?;
      assert j == i;
      assert LastColliderFor(specs, i, n);
      BodyMatchesEntity(specs[i]);
    }
  }
}
