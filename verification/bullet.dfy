/** Bullets and the muzzle flash drawn where a bullet leaves the gun.

    A bullet flies in a straight line and dies after one second.  The flash plays
    a two-frame animation once, follows the entity that fired, and dies when the
    animation finishes or when that entity leaves the scene.  The entity is looked
    up by id in the object manager each frame; the lookup enters as the parameter
    `owner` (`None` when nothing has that id). */
module Bullet {
  import opened Wrappers
  import opened Geometry
  import Animate

  const BulletSpeed: real := 1200.0
  /** A bullet dies once it has lived longer than this, in seconds. */
  const TimeToLive: real := 1.0

  datatype BulletState = BulletState(position: Vec, direction: Vec, age: real, killed: bool)

  function NewBullet(position: Vec, direction: Vec): (b: BulletState)
    ensures b.position == position && b.direction == direction && b.age == 0.0 && !b.killed
  {
    BulletState(position, direction, 0.0, false)
  }

  /** Fly for `dt` seconds and die once older than the time to live.  A dead bullet
      stays dead. */
  function Update(b: BulletState, dt: real): (r: BulletState)
    ensures r.position == Vec(b.position.x + b.direction.x * BulletSpeed * dt, b.position.y + b.direction.y * BulletSpeed * dt)
    ensures r.age == b.age + dt && r.direction == b.direction
    ensures r.killed <==> b.killed || b.age + dt > TimeToLive
  {
    var r := b.(position := b.position.Plus(b.direction.Scale(BulletSpeed * dt)), age := b.age + dt);
    if r.age > TimeToLive then r.(killed := true) else r
  }

  /** `n` updates of `dt` seconds each. */
  function Updates(b: BulletState, dt: real, n: nat): BulletState
  {
    if n == 0 then b else Update(Updates(b, dt, n - 1), dt)
  }

  /** After `n` fixed steps a new bullet has travelled `n` steps' worth of distance
      along its direction and is dead exactly when `n` steps exceed the time to live. */
  lemma {:induction false} Flight(position: Vec, direction: Vec, dt: real, n: nat)
    requires dt > 0.0
    ensures AfterSteps(Updates(NewBullet(position, direction), dt, n), position, direction, dt, n)
  {
    if n > 0 {
      Flight(position, direction, dt, n - 1);
      var prev := Updates(NewBullet(position, direction), dt, n - 1);
      assert Updates(NewBullet(position, direction), dt, n) == Update(prev, dt);
      OneMoreStep(prev, position, direction, dt, n);
    }
  }

  /** What `n` steps of `dt` make of a new bullet fired from `position` along
      `direction`. */
  predicate AfterSteps(b: BulletState, position: Vec, direction: Vec, dt: real, n: nat)
  {
    && b.age == n as real * dt && b.direction == direction
    && b.position == Vec(position.x + (direction.x * BulletSpeed * dt) * n as real,
                         position.y + (direction.y * BulletSpeed * dt) * n as real)
    && (b.killed <==> n as real * dt > TimeToLive)
  }

  /** The induction step of `Flight`. */
  lemma OneMoreStep(prev: BulletState, position: Vec, direction: Vec, dt: real, n: nat)
    requires dt > 0.0 && n > 0
    requires AfterSteps(prev, position, direction, dt, n - 1)
    ensures AfterSteps(Update(prev, dt), position, direction, dt, n)
  {
    var m := (n - 1) as real;
    assert n as real == m + 1.0;
    StepMore(direction.x * BulletSpeed * dt, m);
    StepMore(direction.y * BulletSpeed * dt, m);
    StepMore(dt, m);
    MulNonNeg(m, dt);
  }

  lemma StepMore(k: real, m: real)
    ensures k * m + k == k * (m + 1.0) && m * k + k == (m + 1.0) * k
  {
  }

  lemma MulNonNeg(m: real, dt: real)
    requires m >= 0.0 && dt > 0.0
    ensures m * dt >= 0.0
  {
  }

  /** At the main loop's step of 16666 microseconds a bullet survives 60 steps
      (0.99996 s) and dies on the 61st. */
  lemma DiesOnStep61(position: Vec, direction: Vec)
    ensures !Updates(NewBullet(position, direction), TimePerFrame, 60).killed
    ensures Updates(NewBullet(position, direction), TimePerFrame, 61).killed
  {
    TimePerFrameValue();
    Flight(position, direction, TimePerFrame, 60);
    Flight(position, direction, TimePerFrame, 61);
  }

  // ---------------------------------------------------------------------------
  // Muzzle flash

  /** The flash's frame rate. */
  const FlashFps: nat := 15
  const FlashSequence: string := "fireAnimation"
  /** The two flash frames, as opaque texture handles. */
  const FlashFrames: seq<Animate.Texture> := [0, 1]
  const FlashOffset: real := 60.0

  /** What the flash reads of the entity that fired. */
  datatype Owner = Owner(hitbox: Rect, ducking: bool)

  datatype EventKind = RemoveFromScene | OtherEvent
  datatype Event = Event(kind: EventKind, sender: nat)

  datatype Flash = Flash(
    entityId: nat,
    direction: Vec,
    animation: Animate.Animation,
    texture: Animate.Texture,
    mirrored: bool,     // drawn with scale (-1, 1)
    position: Vec,
    killed: bool)

  /** The flash's animation: the two frames registered and selected, frame 0. */
  function FlashAnimation(): (a: Animate.Animation)
    ensures Animate.InBounds(a) && a.frameIndex == 0.0 && a.fps == FlashFps as real
    ensures Animate.CurrentFrames(a) == FlashFrames
  {
    var empty := Animate.NewAnimation(FlashFps);
    var added := Animate.AddSequence(empty, FlashSequence, FlashFrames);
    Animate.SetSequence(added, FlashSequence).value
  }

  /** Show the current frame, mirrored when the flash points left.  A mirror once
      set is never undone. */
  function SetAnimationFrame(f: Flash): (r: Flash)
    requires Animate.InBounds(f.animation)
    ensures r.texture in Animate.CurrentFrames(f.animation)
    ensures r.mirrored <==> f.mirrored || f.direction.x < 0.0
    ensures r == f.(texture := r.texture, mirrored := r.mirrored)
  {
    f.(texture := Animate.GetTexture(f.animation), mirrored := f.mirrored || f.direction.x < 0.0)
  }

  /** Follow the owner: its hitbox centre, 60 ahead along the flash direction and at
      muzzle height.  Without an owner the flash stays where it is. */
  function SetPositionWithOffset(f: Flash, owner: Option<Owner>): (r: Flash)
    ensures owner.None? ==> r == f
    ensures owner.Some? ==>
      && r.position.x == owner.value.hitbox.CenterX() + (if f.direction.x > 0.0 then FlashOffset else -FlashOffset)
      && r.position.y == owner.value.hitbox.CenterY() + (if owner.value.ducking then 10.0 else -16.0)
    ensures r == f.(position := r.position)
  {
    match owner
    case None => f
    case Some(o) =>
      var offset := Vec(if f.direction.x > 0.0 then FlashOffset else -FlashOffset,
                        if o.ducking then 10.0 else -16.0);
      f.(position := o.hitbox.Center().Plus(offset))
  }

  function NewFlash(entityId: nat, direction: Vec, owner: Option<Owner>): (f: Flash)
    ensures !f.killed && f.entityId == entityId && f.direction == direction
    ensures Animate.InBounds(f.animation) && f.animation.frameIndex == 0.0 && f.animation.fps == FlashFps as real
    ensures f.mirrored <==> direction.x < 0.0
    ensures f.texture == FlashFrames[0]
  {
    var blank := Flash(entityId, direction, FlashAnimation(), 0, false, Vec(0.0, 0.0), false);
    SetPositionWithOffset(SetAnimationFrame(blank), owner)
  }

  /** Advance the animation; when it wraps the flash dies, otherwise it shows the new
      frame and follows its owner. */
  function UpdateFlash(f: Flash, dt: real, owner: Option<Owner>): (r: Flash)
    requires Animate.InBounds(f.animation) && f.animation.fps >= 0.0 && dt >= 0.0
    ensures r.killed <==> f.killed || Animate.Update(f.animation, dt).1
    ensures Animate.InBounds(r.animation) && r.animation.fps == f.animation.fps
    ensures r.animation.sequences == f.animation.sequences && r.animation.current == f.animation.current
    ensures r.entityId == f.entityId && r.direction == f.direction
    ensures Animate.Update(f.animation, dt).1 ==> r.position == f.position && r.texture == f.texture
    ensures !Animate.Update(f.animation, dt).1 && owner.None? ==> r.position == f.position
  {
    Animate.UpdateKeepsBounds(f.animation, dt);
    var stepped := Animate.Update(f.animation, dt);
    if stepped.1 then f.(animation := stepped.0, killed := true)
    else SetPositionWithOffset(SetAnimationFrame(f.(animation := stepped.0)), owner)
  }

  /** The flash dies exactly when its own entity leaves the scene. */
  function HandleEvent(f: Flash, e: Event): (r: Flash)
    ensures r.killed <==> f.killed || (e.kind == RemoveFromScene && e.sender == f.entityId)
    ensures r == f.(killed := r.killed)
  {
    if e.kind == RemoveFromScene && e.sender == f.entityId then f.(killed := true) else f
  }

  function FlashUpdates(f: Flash, dt: real, owner: Option<Owner>, n: nat): (r: Flash)
    requires Animate.InBounds(f.animation) && f.animation.fps >= 0.0 && dt >= 0.0
    ensures Animate.InBounds(r.animation) && r.animation.fps == f.animation.fps
    ensures r.animation.sequences == f.animation.sequences && r.animation.current == f.animation.current
  {
    if n == 0 then f else UpdateFlash(FlashUpdates(f, dt, owner, n - 1), dt, owner)
  }

  /** At the main loop's step of 16666 microseconds the flash advances 0.24999 of
      a frame per step, just short of a quarter: it lives through `n` steps for `n`
      up to 8, and dies on the 9th, when its index first reaches the two frames. */
  lemma {:induction false} FlashLifetime(entityId: nat, direction: Vec, owner: Option<Owner>, n: nat)
    requires n <= 8
    ensures var f := FlashUpdates(NewFlash(entityId, direction, owner), TimePerFrame, owner, n);
      && !f.killed
      && f.animation.frameIndex == n as real * 0.24999
      && (UpdateFlash(f, TimePerFrame, owner).killed <==> n == 8)
  {
    TimePerFrameValue();
    var f0 := NewFlash(entityId, direction, owner);
    if n > 0 {
      FlashLifetime(entityId, direction, owner, n - 1);
    }
    var f := FlashUpdates(f0, TimePerFrame, owner, n);
    assert f.animation.fps * TimePerFrame == 0.24999;
    assert Animate.CurrentFrames(f.animation) == FlashFrames;
  }
}
