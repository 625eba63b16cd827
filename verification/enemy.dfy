/** A stationary enemy: it stands on the ground it was placed over, turns towards
    the player, and fires at the player when the player is near and at its
    height.  Its hitbox never moves after construction. */
module Enemy {
  import opened Wrappers
  import opened Geometry
  import opened Entity

  const StartHealth: int := 3
  const FireCooldownMs: nat := 1000
  /** The player must be nearer than this (centre to centre) to be fired at. */
  const FireRange: real := 600.0
  /** How far above the top and below the bottom the player's centre may be. */
  const HeightSlack: real := 20.0
  const MuzzleOffset: real := 40.0

  datatype EnemyState = EnemyState(entity: EntityState, hitbox: Rect, previous: Rect)

  /** Put the hitbox on the tiles under it, in the order the tile map reports them:
      each moves the bottom to its top, so the last one decides. */
  function SnapToGround(h: Rect, tiles: seq<Rect>): (r: Rect)
    ensures r.left == h.left && r.width == h.width && r.height == h.height
    ensures tiles == [] ==> r == h
    ensures tiles != [] ==> r.Bottom() == tiles[|tiles| - 1].top
    decreases |tiles|
  {
    if tiles == [] then h
    else SnapToGround(h, tiles[..|tiles| - 1]).SetBottom(tiles[|tiles| - 1].top)
  }

  /** A new enemy placed at `position`, standing on the tiles the collision layer
      reports under its sprite bounds. */
  function NewEnemy(position: Vec, spriteSize: Vec, query: Rect -> seq<Rect>): (e: EnemyState)
    ensures e.entity == NewEntity(StartHealth, FireCooldownMs, "right")
    ensures e.previous == e.hitbox
    ensures e.hitbox.left == position.x && e.hitbox.width == spriteSize.x && e.hitbox.height == spriteSize.y
    ensures query(RectAt(position, spriteSize)) != [] ==>
      e.hitbox.Bottom() == query(RectAt(position, spriteSize))[|query(RectAt(position, spriteSize))| - 1].top
  {
    var h := SnapToGround(RectAt(position, spriteSize), query(RectAt(position, spriteSize)));
    EnemyState(NewEntity(StartHealth, FireCooldownMs, "right"), h, h)
  }

  /** Face the player: left exactly when the player's centre is left of ours. */
  function UpdateStatus(e: EnemyState, player: Rect): (r: EnemyState)
    ensures r.entity.status == "left" <==> player.CenterX() < e.hitbox.CenterX()
    ensures r.entity.status == "right" <==> !(player.CenterX() < e.hitbox.CenterX())
    ensures r == e.(entity := e.entity.(status := r.entity.status))
  {
    e.(entity := e.entity.(status := if player.CenterX() < e.hitbox.CenterX() then "left" else "right"))
  }

  function DistanceSquared(a: Vec, b: Vec): (d: real)
    ensures d >= 0.0
  {
    (a.x - b.x) * (a.x - b.x) + (a.y - b.y) * (a.y - b.y)
  }

  /** The player is within range (the distance is compared through its square, so
      no square root is needed) and its centre is within the slack of our height. */
  predicate PlayerInSight(e: EnemyState, player: Rect)
  {
    && DistanceSquared(e.hitbox.Center(), player.Center()) < FireRange * FireRange
    && e.hitbox.top - HeightSlack < player.CenterY() < e.hitbox.Bottom() + HeightSlack
  }

  /** Fire at the player when it is in sight and the cooldown is over. */
  function CheckFire(e: EnemyState, player: Rect): (r: (EnemyState, Option<Shot>))
    ensures r.1.Some? <==> PlayerInSight(e, player) && CanFireBullet(e.entity)
    ensures r.1.Some? ==> (!r.1.value.isPlayerBullet && r.1.value.direction == FireDirection(e.entity.status)
      && r.1.value.position == Vec(e.hitbox.CenterX() + r.1.value.direction.x * MuzzleOffset, e.hitbox.CenterY() + MuzzleDrop(false)))
    ensures r.1.None? ==> r.0 == e
    ensures r.0.hitbox == e.hitbox && r.0.previous == e.previous
    ensures r.0.entity.health == e.entity.health && r.0.entity.status == e.entity.status
  {
    if PlayerInSight(e, player) && CanFireBullet(e.entity) then
      var fired := FireBullet(e.entity, e.hitbox, MuzzleOffset, false, false);
      (e.(entity := fired.0), Some(fired.1))
    else (e, None)
  }

  /** One frame: remember the hitbox, face the player, run the timers, maybe fire,
      and die at zero health.  The hitbox stays where it is. */
  function Update(e: EnemyState, dt: real, player: Rect): (r: (EnemyState, Option<Shot>))
    ensures r.0.hitbox == e.hitbox && r.0.previous == e.hitbox
    ensures r.0.entity.health == e.entity.health
    ensures r.0.entity.killed <==> e.entity.killed || e.entity.health <= 0
    ensures r.1.Some? <==> PlayerInSight(e, player) && e.entity.fireCooldown.remaining - dt <= 0.0
    ensures r.1.Some? ==> !CanFireBullet(r.0.entity) || r.0.entity.fireCooldown.duration <= 0.0
  {
    var faced := UpdateStatus(e.(previous := e.hitbox), player);
    var ticked := faced.(entity := UpdateTimerCooldowns(faced.entity, dt));
    var fired := CheckFire(ticked, player);
    (fired.0.(entity := CheckDeath(fired.0.entity)), fired.1)
  }

  /** An enemy always fires towards the player: never away from the side the
      player's centre is on. */
  lemma {:induction false} FiresTowardPlayer(e: EnemyState, dt: real, player: Rect)
    requires Update(e, dt, player).1.Some?
    ensures var d := Update(e, dt, player).1.value.direction.x;
      (d == -1.0 <==> player.CenterX() < e.hitbox.CenterX())
      && (d == 1.0 <==> !(player.CenterX() < e.hitbox.CenterX()))
  {
    LeftPrefix();
    RightPrefix();
  }

  lemma LeftPrefix()
    ensures StatusPrefix("left") == "left"
  {
    assert "left"[1..] == "eft";
    assert "eft"[1..] == "ft";
    assert "ft"[1..] == "t";
    assert "t"[1..] == "";
  }

  lemma RightPrefix()
    ensures StatusPrefix("right") == "right"
  {
    assert "right"[1..] == "ight";
    assert "ight"[1..] == "ght";
    assert "ght"[1..] == "ht";
    assert "ht"[1..] == "t";
    assert "t"[1..] == "";
  }
}
