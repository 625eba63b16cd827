/** One frame of the game layer: the pass over the objects updated before the
    player, the player's own update, the pass over the objects updated after it,
    the bullet collisions, the fall check and the game-over test, in that order.

    Every object other than the player is an actor whose own state sits beside its
    record in the registry.  An actor's update may fire (an enemy) and may kill the
    actor; a shot creates its bullet and flash through the game's firing rule and
    a kill goes through the registry, so each pass sees the requests that the
    earlier steps of the same frame made.  The manager's synchronisation runs
    between frames and is not part of one. */
module Frame {
  import opened Wrappers
  import opened Geometry
  import opened Groups
  import opened Registry
  import opened Game
  import Entity
  import Player
  import Animate
  import Enemy
  import Bullet
  import Platform

  // ---------------------------------------------------------------------------
  // One frame: the objects of the scene

  /** What a game object other than the player is, with its own state. */
  datatype Actor =
    | EnemyActor(enemy: Enemy.EnemyState)
    | PlatformActor(platform: Platform.PlatformState)
    | BulletActor(bullet: Bullet.BulletState)
    | FlashActor(flash: Bullet.Flash)

  /** The game's scene: the registry, the state of every object other than the
      player by handle, and the player with its handle. */
  datatype Scene = Scene(world: World, actors: map<ObjId, Actor>, player: Player.PlayerState, playerId: ObjId)

  /** What a frame reads from outside the model: the time step, the keys held, the
      collision layer's query, the platforms' waypoints, the player's obstacle
      classification, a bullet's sprite bounds at its position, the pixel-mask
      test, and the player's start position and sprite size. */
  datatype Env = Env(
    dt: real,
    keys: Player.Keys,
    query: Rect -> seq<Rect>,
    waypoints: seq<Rect>,
    classify: (Rect, Rect, Player.Obstacle) -> Player.Side,
    bulletBounds: Vec -> Rect,
    mask: (ObjId, ObjId) -> bool,
    start: Vec,
    spriteSize: Vec)

  /** The group updated before the player, the group of enemies that can be hit
      and the group of obstacles are none of the groups a shot joins. */
  predicate ShotGroupsApart(gg: GameGroups)
  {
    && gg.preUpdate != gg.draw && gg.preUpdate != gg.postUpdate && gg.preUpdate != gg.bullets
    && gg.preUpdate != gg.playerBullets && gg.preUpdate != gg.enemyBullets
    && gg.vulnerable != gg.draw && gg.vulnerable != gg.postUpdate && gg.vulnerable != gg.bullets
    && gg.vulnerable != gg.playerBullets && gg.vulnerable != gg.enemyBullets
    && gg.collision != gg.draw && gg.collision != gg.postUpdate && gg.collision != gg.bullets
    && gg.collision != gg.playerBullets && gg.collision != gg.enemyBullets
  }

  /** The state an actor's update reads is well formed: a flash's animation is in
      bounds and does not run backwards. */
  predicate ActorReady(a: Actor)
  {
    a.FlashActor? ==> Animate.InBounds(a.flash.animation) && a.flash.animation.fps >= 0.0
  }

  /** The killed flag an actor's own state carries. */
  predicate OwnFlag(a: Actor)
  {
    match a
    case EnemyActor(e) => e.entity.killed
    case PlatformActor(_) => false
    case BulletActor(b) => b.killed
    case FlashActor(f) => f.killed
  }

  predicate SameKind(a: Actor, b: Actor)
  {
    && (a.EnemyActor? <==> b.EnemyActor?) && (a.PlatformActor? <==> b.PlatformActor?)
    && (a.BulletActor? <==> b.BulletActor?) && (a.FlashActor? <==> b.FlashActor?)
  }

  /** The new bullet: at the shot's position, flying in its direction, alive. */
  function ShotBullet(shot: Entity.Shot): (a: Actor)
    ensures a.BulletActor? && !OwnFlag(a) && ActorReady(a)
    ensures a.bullet.position == shot.position && a.bullet.direction == shot.direction && a.bullet.age == 0.0
  {
    BulletActor(Bullet.NewBullet(shot.position, shot.direction))
  }

  /** The new flash: tied to `firer`, pointing the shot's way, alive and ready. */
  function ShotFlash(firer: ObjId, owner: Option<Bullet.Owner>, shot: Entity.Shot): (a: Actor)
    ensures a.FlashActor? && !OwnFlag(a) && ActorReady(a)
    ensures a.flash.entityId == firer && a.flash.direction == shot.direction
  {
    FlashActor(Bullet.NewFlash(firer, shot.direction, owner))
  }

  /** Record the states of a new bullet `b` and its new flash `f`. */
  function AddShotActors(actors: map<ObjId, Actor>, b: ObjId, f: ObjId, bullet: Actor, flash: Actor): (r: map<ObjId, Actor>)
    requires b !in actors && f !in actors && b != f
    ensures r.Keys == actors.Keys + {b, f} && r[b] == bullet && r[f] == flash
    ensures forall x :: x in actors ==> r[x] == actors[x]
  {
    actors[b := bullet][f := flash]
  }

  function ActorAt(s: Scene, x: ObjId): Option<Actor>
  {
    if x in s.actors then Some(s.actors[x]) else None
  }

  /** Objects fit the groups they joined: only enemies and platforms are updated
      before the player, only bullets and flashes after it, only enemies can be
      hit by the player's bullets, and only platforms are obstacles. */
  predicate RecordsFit(groups: set<GroupId>, a: Option<Actor>, gg: GameGroups)
  {
    && (gg.preUpdate in groups ==> a.Some? && (a.value.EnemyActor? || a.value.PlatformActor?))
    && (gg.postUpdate in groups ==> a.Some? && (a.value.BulletActor? || a.value.FlashActor?))
    && (gg.vulnerable in groups ==> a.Some? && a.value.EnemyActor?)
    && (gg.collision in groups ==> a.Some? && a.value.PlatformActor?)
  }

  /** The scene invariant: the registry keeps its invariant and holds the game's
      groups; the player and every actor are owned; objects fit their groups;
      every actor is ready for its update; a kill an actor's own state records has
      reached the registry; the player's health is a non-negative 32-bit value. */
  ghost predicate SceneInv(s: Scene, gg: GameGroups)
  {
    && WorldInv(s.world) && GroupsExist(s.world, gg) && ShotGroupsApart(gg)
    && s.playerId in s.world.objects && s.playerId !in s.actors
    && s.actors.Keys <= s.world.objects.Keys
    && AllFit(s, gg) && AllReady(s) && FlagsReported(s)
    && 0 <= s.player.entity.health < 0x8000_0000
  }

  predicate AllFit(s: Scene, gg: GameGroups)
  {
    forall x :: x in s.world.objects ==> RecordsFit(s.world.objects[x].groups, ActorAt(s, x), gg)
  }

  predicate AllReady(s: Scene)
  {
    forall x :: x in s.actors ==> ActorReady(s.actors[x])
  }

  /** A kill an actor's own state records has reached the registry. */
  predicate FlagsReported(s: Scene)
  {
    forall x :: x in s.actors && OwnFlag(s.actors[x]) ==> x in s.world.objects && s.world.objects[x].killed
  }

  /** What the flash's lookup of its entity finds: the player or an enemy while it
      is owned, read as a hitbox and a ducking flag (an enemy never ducks). */
  function OwnerOf(s: Scene, id: ObjId): (o: Option<Bullet.Owner>)
    ensures o.Some? ==> id in s.world.objects
  {
    if id !in s.world.objects then None
    else if id == s.playerId then Some(Bullet.Owner(s.player.hitbox, s.player.ducking))
    else if id in s.actors && s.actors[id].EnemyActor? then Some(Bullet.Owner(s.actors[id].enemy.hitbox, false))
    else None
  }

  // ---------------------------------------------------------------------------
  // One frame: a shot

  /** The game's handling of a shot: the bullet and its flash are created and
      joined to their groups, the bullet starting at the shot's position and the
      flash placed after `owner`, the entity `firer` as the lookup found it. */
  function Fire(s: Scene, gg: GameGroups, firer: ObjId, owner: Option<Bullet.Owner>, shot: Entity.Shot): (r: Scene)
    requires IssuedBelow(s.world) && GroupsExist(s.world, gg) && s.actors.Keys <= s.world.objects.Keys
    ensures r.player == s.player && r.playerId == s.playerId
    ensures r.world.groups.Keys == s.world.groups.Keys && GroupsExist(r.world, gg) && IssuedBelow(r.world)
    ensures forall x :: x in s.world.objects ==> x in r.world.objects && r.world.objects[x] == s.world.objects[x]
    ensures forall x :: x in s.actors ==> x in r.actors && r.actors[x] == s.actors[x]
  {
    var fired := FireBullet(s.world, gg, shot.isPlayerBullet);
    Scene(fired.0, AddShotActors(s.actors, fired.1, fired.2, ShotBullet(shot), ShotFlash(firer, owner, shot)), s.player, s.playerId)
  }

  /** A shot changes only the groups a bullet or a flash joins. */
  lemma FireOtherGroup(s: Scene, gg: GameGroups, firer: ObjId, owner: Option<Bullet.Owner>, shot: Entity.Shot, h: GroupId)
    requires IssuedBelow(s.world) && GroupsExist(s.world, gg) && s.actors.Keys <= s.world.objects.Keys
    requires h in s.world.groups && h !in ShotGroups(gg)
    ensures Fire(s, gg, firer, owner, shot).world.groups[h] == s.world.groups[h]
  {
    FireBulletOtherGroup(s.world, gg, shot.isPlayerBullet, h);
  }

  /** `r` is `s` with a live bullet `b` and a live, ready flash `f` added, each
      joined to the groups a shot joins and nothing else changed. */
  ghost predicate ShotAdded(s: Scene, r: Scene, b: ObjId, f: ObjId, gg: GameGroups, isPlayerBullet: bool)
  {
    && b !in s.world.objects && f !in s.world.objects && b != f
    && r.player == s.player && r.playerId == s.playerId
    && (forall x :: x in r.world.objects <==> x in s.world.objects || x == b || x == f)
    && (forall x :: x in s.world.objects ==> r.world.objects[x] == s.world.objects[x])
    && r.actors.Keys == s.actors.Keys + {b, f}
    && (forall x :: x in s.actors ==> r.actors[x] == s.actors[x])
    && r.world.objects[b] == ObjectState(BulletGroups(gg, isPlayerBullet), false)
    && r.world.objects[f] == ObjectState({gg.draw, gg.postUpdate}, false)
    && r.actors[b].BulletActor? && !OwnFlag(r.actors[b])
    && r.actors[f].FlashActor? && !OwnFlag(r.actors[f]) && ActorReady(r.actors[f])
  }

  lemma FireAddsShot(s: Scene, gg: GameGroups, firer: ObjId, owner: Option<Bullet.Owner>, shot: Entity.Shot)
    requires IssuedBelow(s.world) && GroupsExist(s.world, gg) && s.actors.Keys <= s.world.objects.Keys
    ensures var fired := FireBullet(s.world, gg, shot.isPlayerBullet);
      ShotAdded(s, Fire(s, gg, firer, owner, shot), fired.1, fired.2, gg, shot.isPlayerBullet)
  {
    FireBulletJoins(s.world, gg, shot.isPlayerBullet);
  }

  lemma ShotAddedFits(s: Scene, r: Scene, b: ObjId, f: ObjId, gg: GameGroups, isPlayerBullet: bool)
    requires ShotGroupsApart(gg) && ShotAdded(s, r, b, f, gg, isPlayerBullet) && AllFit(s, gg)
    ensures AllFit(r, gg)
  {
    forall x | x in r.world.objects
      ensures RecordsFit(r.world.objects[x].groups, ActorAt(r, x), gg)
    {
      if x in s.world.objects {
        assert ActorAt(r, x) == ActorAt(s, x);
      }
    }
  }

  lemma ShotAddedReady(s: Scene, r: Scene, b: ObjId, f: ObjId, gg: GameGroups, isPlayerBullet: bool)
    requires ShotAdded(s, r, b, f, gg, isPlayerBullet) && AllReady(s) && FlagsReported(s)
    ensures AllReady(r) && FlagsReported(r)
  {
    forall x | x in r.actors
      ensures ActorReady(r.actors[x]) && (OwnFlag(r.actors[x]) ==> x in r.world.objects && r.world.objects[x].killed)
    {
      if x in s.actors {
        assert r.actors[x] == s.actors[x];
      }
    }
  }

  /** Adding a shot keeps the scene invariant once the registry keeps its own. */
  lemma ShotAddedKeepsInv(s: Scene, r: Scene, b: ObjId, f: ObjId, gg: GameGroups, isPlayerBullet: bool)
    requires SceneInv(s, gg) && ShotAdded(s, r, b, f, gg, isPlayerBullet)
    requires WorldInv(r.world) && GroupsExist(r.world, gg)
    ensures SceneInv(r, gg)
  {
    ShotAddedFits(s, r, b, f, gg, isPlayerBullet);
    ShotAddedReady(s, r, b, f, gg, isPlayerBullet);
  }

  /** A shot keeps the scene invariant: the bullet and the flash are owned, alive,
      ready, and fit the groups they joined. */
  lemma FireKeepsInv(s: Scene, gg: GameGroups, firer: ObjId, owner: Option<Bullet.Owner>, shot: Entity.Shot)
    requires SceneInv(s, gg)
    ensures SceneInv(Fire(s, gg, firer, owner, shot), gg)
  {
    var fired := FireBullet(s.world, gg, shot.isPlayerBullet);
    FireBulletKeepsInv(s.world, gg, shot.isPlayerBullet);
    FireAddsShot(s, gg, firer, owner, shot);
    ShotAddedKeepsInv(s, Fire(s, gg, firer, owner, shot), fired.1, fired.2, gg, shot.isPlayerBullet);
  }

  // ---------------------------------------------------------------------------
  // One frame: one actor's update

  /** Whether an actor's update kills it: an enemy whose health is gone, a bullet
      older than its time to live, a flash whose animation wraps.  A platform never
      dies. */
  predicate Dies(a: Actor, dt: real)
  {
    match a
    case EnemyActor(e) => e.entity.health <= 0
    case PlatformActor(_) => false
    case BulletActor(b) => b.age + dt > Bullet.TimeToLive
    case FlashActor(f) => Animate.HasCurrent(f.animation) && Animate.Update(f.animation, dt).1
  }

  /** An actor's new state, the shot it fired, and whether it killed itself. */
  datatype Stepped = Stepped(actor: Actor, shot: Option<Entity.Shot>, dies: bool)

  /** An actor's own update: an enemy watches the player's hitbox `target`, a
      platform follows the waypoints, a bullet flies, a flash follows `owner`.  The
      actor records a kill in its own state exactly when the update kills it, and
      only an enemy fires. */
  function StepActor(a: Actor, env: Env, target: Rect, owner: Option<Bullet.Owner>): (r: Stepped)
    requires ActorReady(a) && env.dt >= 0.0
    ensures SameKind(a, r.actor) && ActorReady(r.actor)
    ensures r.dies <==> Dies(a, env.dt)
    ensures OwnFlag(r.actor) <==> OwnFlag(a) || r.dies
    ensures r.shot.Some? ==> a.EnemyActor?
    ensures a.EnemyActor? ==> r.actor.enemy.hitbox == a.enemy.hitbox
  {
    match a
    case EnemyActor(e) =>
      var u := Enemy.Update(e, env.dt, target);
      Stepped(EnemyActor(u.0), u.1, e.entity.health <= 0)
    case PlatformActor(p) =>
      Stepped(PlatformActor(Platform.Update(p, env.dt, env.waypoints)), None, false)
    case BulletActor(b) =>
      Stepped(BulletActor(Bullet.Update(b, env.dt)), None, b.age + env.dt > Bullet.TimeToLive)
    case FlashActor(f) =>
      Stepped(FlashActor(Bullet.UpdateFlash(f, env.dt, owner)), None, Animate.Update(f.animation, env.dt).1)
  }

  /** What one actor's update needs of the scene: a registry that can issue
      handles and holds the game's groups, actors that are owned, and the actor
      `x` ready for its update. */
  predicate Steppable(s: Scene, gg: GameGroups, x: ObjId)
  {
    && IssuedBelow(s.world) && GroupsExist(s.world, gg) && s.actors.Keys <= s.world.objects.Keys
    && x in s.world.objects && (x in s.actors ==> ActorReady(s.actors[x]))
  }

  lemma InvSteppable(s: Scene, gg: GameGroups, x: ObjId)
    requires SceneInv(s, gg) && x in s.world.objects
    ensures Steppable(s, gg, x)
  {
  }

  /** The owner a flash's update looks up; other actors look up nothing. */
  function FlashOwner(s: Scene, a: Actor): Option<Bullet.Owner>
  {
    if a.FlashActor? then OwnerOf(s, a.flash.entityId) else None
  }

  /** Store an actor's new state and send the kill its update made to the
      registry. */
  function Commit(s: Scene, x: ObjId, st: Stepped): Scene
    requires x in s.world.objects
  {
    s.(actors := s.actors[x := st.actor], world := KillIf(s.world, x, st.dies))
  }

  /** What the frame relies on in an actor's update `st` of `a`. */
  predicate StepFits(a: Actor, st: Stepped, dt: real)
  {
    && SameKind(a, st.actor) && ActorReady(st.actor)
    && (st.dies <==> Dies(a, dt))
    && (OwnFlag(st.actor) <==> OwnFlag(a) || st.dies)
    && (st.shot.Some? ==> a.EnemyActor?)
  }

  /** The update of the actor `x`, reading the player's hitbox and, for a flash,
      its owner in the scene as it stands. */
  function StepOf(s: Scene, env: Env, x: ObjId): (st: Stepped)
    requires x in s.actors && ActorReady(s.actors[x]) && env.dt >= 0.0
    ensures StepFits(s.actors[x], st, env.dt)
  {
    StepActor(s.actors[x], env, s.player.hitbox, FlashOwner(s, s.actors[x]))
  }

  /** The effects of the update `st` of the actor `x`: a shot is handled at once
      by the game's firing rule; the flash reads the enemy's hitbox, which the
      enemy's update leaves in place, so the shot is handled before the enemy's
      new state is stored.  Then the kill, if any, reaches the registry. */
  function Apply(s: Scene, gg: GameGroups, x: ObjId, st: Stepped): Scene
    requires IssuedBelow(s.world) && GroupsExist(s.world, gg) && s.actors.Keys <= s.world.objects.Keys
    requires x in s.actors
  {
    var fired := if st.shot.Some? then Fire(s, gg, x, OwnerOf(s, x), st.shot.value) else s;
    Commit(fired, x, st)
  }

  /** `object->Update(timeslice)` for the object `x` a pass stands on. */
  function ActStep(s: Scene, env: Env, gg: GameGroups, x: ObjId): Scene
    requires Steppable(s, gg, x) && env.dt >= 0.0
  {
    if x !in s.actors then s else Apply(s, gg, x, StepOf(s, env, x))
  }

  /** What a stretch of frame that updated the objects `ys` leaves: the player as
      it was; every object still owned with the groups it recorded and the same
      kind of actor; actors outside `ys` untouched; and an object killed exactly
      when it was killed before or it is an actor of `ys` whose update kills it. */
  ghost predicate Evolved(s: Scene, r: Scene, ys: seq<ObjId>, dt: real)
  {
    && r.player == s.player && r.playerId == s.playerId
    && (forall y :: y in s.world.objects ==> y in r.world.objects && r.world.objects[y].groups == s.world.objects[y].groups)
    && (forall y :: y in s.world.objects ==> (y in r.actors <==> y in s.actors))
    && (forall y :: y in s.actors ==> y in r.actors && SameKind(s.actors[y], r.actors[y]))
    && (forall y :: y in s.actors && y !in ys ==> r.actors[y] == s.actors[y])
    && (forall y :: y in s.world.objects ==>
          (r.world.objects[y].killed <==> s.world.objects[y].killed || (y in s.actors && y in ys && Dies(s.actors[y], dt))))
  }

  /** The same kind of actor fits the same groups. */
  lemma SameKindFits(groups: set<GroupId>, a: Actor, b: Actor, gg: GameGroups)
    requires SameKind(a, b)
    ensures RecordsFit(groups, Some(a), gg) <==> RecordsFit(groups, Some(b), gg)
  {
  }

  /** Two stretches of a frame that update different objects make one. */
  lemma EvolvedTrans(s: Scene, m: Scene, r: Scene, ys1: seq<ObjId>, ys2: seq<ObjId>, dt: real)
    requires Evolved(s, m, ys1, dt) && Evolved(m, r, ys2, dt)
    requires forall y :: y in ys2 ==> y !in ys1
    ensures Evolved(s, r, ys1 + ys2, dt)
  {
    forall y | y in s.actors && y !in ys1 + ys2
      ensures r.actors[y] == s.actors[y]
    {
      assert y !in ys1 && y !in ys2;
    }
    forall y | y in s.world.objects
      ensures r.world.objects[y].killed <==>
                s.world.objects[y].killed || (y in s.actors && y in ys1 + ys2 && Dies(s.actors[y], dt))
    {
      if y in s.actors && y in ys2 {
        assert y !in ys1;
      }
    }
  }

  /** Storing an actor's new state of the same kind and sending its kill changes
      nothing else. */
  lemma CommitEvolves(s: Scene, x: ObjId, st: Stepped, dt: real)
    requires x in s.actors && x in s.world.objects
    requires SameKind(s.actors[x], st.actor) && (st.dies <==> Dies(s.actors[x], dt))
    ensures Evolved(s, Commit(s, x, st), [x], dt)
  {
  }

  /** A stretch that updated nothing, then the commit of `x`'s update. */
  lemma CommitAfter(s: Scene, m: Scene, x: ObjId, st: Stepped, dt: real)
    requires Evolved(s, m, [], dt) && x in s.actors && x in s.world.objects
    requires SameKind(s.actors[x], st.actor) && (st.dies <==> Dies(s.actors[x], dt))
    ensures Evolved(s, Commit(m, x, st), [x], dt)
  {
    assert m.actors[x] == s.actors[x];
    CommitEvolves(m, x, st, dt);
    EvolvedTrans(s, m, Commit(m, x, st), [], [x], dt);
    assert [] + [x] == [x];
  }

  /** Firing adds objects and changes no old one. */
  lemma FireEvolves(s: Scene, gg: GameGroups, firer: ObjId, owner: Option<Bullet.Owner>, shot: Entity.Shot, dt: real)
    requires IssuedBelow(s.world) && GroupsExist(s.world, gg) && s.actors.Keys <= s.world.objects.Keys
    ensures Evolved(s, Fire(s, gg, firer, owner, shot), [], dt)
  {
    var fired := FireBullet(s.world, gg, shot.isPlayerBullet);
    FireAddsShot(s, gg, firer, owner, shot);
    ShotAddedEvolves(s, Fire(s, gg, firer, owner, shot), fired.1, fired.2, gg, shot.isPlayerBullet, dt);
  }

  lemma ShotAddedEvolves(s: Scene, r: Scene, b: ObjId, f: ObjId, gg: GameGroups, isPlayerBullet: bool, dt: real)
    requires ShotAdded(s, r, b, f, gg, isPlayerBullet) && s.actors.Keys <= s.world.objects.Keys
    ensures Evolved(s, r, [], dt)
  {
  }

  lemma CommitFits(s: Scene, gg: GameGroups, x: ObjId, st: Stepped)
    requires AllFit(s, gg) && x in s.actors && x in s.world.objects
    requires SameKind(s.actors[x], st.actor)
    ensures AllFit(Commit(s, x, st), gg)
  {
    var r := Commit(s, x, st);
    forall y | y in r.world.objects
      ensures RecordsFit(r.world.objects[y].groups, ActorAt(r, y), gg)
    {
      if y == x {
        SameKindFits(s.world.objects[y].groups, s.actors[x], st.actor, gg);
      } else {
        assert ActorAt(r, y) == ActorAt(s, y);
      }
    }
  }

  lemma CommitReports(s: Scene, x: ObjId, st: Stepped)
    requires AllReady(s) && FlagsReported(s) && x in s.actors && x in s.world.objects
    requires ActorReady(st.actor) && (OwnFlag(st.actor) ==> OwnFlag(s.actors[x]) || st.dies)
    ensures AllReady(Commit(s, x, st)) && FlagsReported(Commit(s, x, st))
  {
  }

  /** Storing an actor's new state of the same kind and a kill it records in its
      own state keeps the scene invariant. */
  lemma CommitKeepsInv(s: Scene, gg: GameGroups, x: ObjId, st: Stepped)
    requires SceneInv(s, gg) && x in s.actors
    requires SameKind(s.actors[x], st.actor) && ActorReady(st.actor)
    requires OwnFlag(st.actor) ==> OwnFlag(s.actors[x]) || st.dies
    ensures SceneInv(Commit(s, x, st), gg)
  {
    if st.dies {
      KillKeepsInv(s.world, x);
    }
    CommitFits(s, gg, x, st);
    CommitReports(s, x, st);
  }

  /** An actor's update keeps the scene invariant. */
  lemma ApplyKeepsInv(s: Scene, gg: GameGroups, x: ObjId, st: Stepped, dt: real)
    requires SceneInv(s, gg) && x in s.actors && StepFits(s.actors[x], st, dt)
    ensures SceneInv(Apply(s, gg, x, st), gg)
  {
    if st.shot.Some? {
      FireKeepsInv(s, gg, x, OwnerOf(s, x), st.shot.value);
      var fired := Fire(s, gg, x, OwnerOf(s, x), st.shot.value);
      CommitKeepsInv(fired, gg, x, st);
    } else {
      CommitKeepsInv(s, gg, x, st);
    }
  }

  /** An actor's update changes only that actor and kills it exactly when its
      update does; a shot adds new objects and changes no old one. */
  lemma ApplyEvolves(s: Scene, gg: GameGroups, x: ObjId, st: Stepped, dt: real)
    requires IssuedBelow(s.world) && GroupsExist(s.world, gg) && s.actors.Keys <= s.world.objects.Keys
    requires x in s.actors && StepFits(s.actors[x], st, dt)
    ensures Evolved(s, Apply(s, gg, x, st), [x], dt)
  {
    if st.shot.Some? {
      FireEvolves(s, gg, x, OwnerOf(s, x), st.shot.value, dt);
      CommitAfter(s, Fire(s, gg, x, OwnerOf(s, x), st.shot.value), x, st, dt);
    } else {
      CommitEvolves(s, x, st, dt);
    }
  }

  /** One object's update keeps the scene invariant. */
  lemma ActStepKeepsInv(s: Scene, env: Env, gg: GameGroups, x: ObjId)
    requires SceneInv(s, gg) && env.dt >= 0.0 && x in s.world.objects
    ensures Steppable(s, gg, x) && SceneInv(ActStep(s, env, gg, x), gg)
  {
    InvSteppable(s, gg, x);
    if x in s.actors {
      ApplyKeepsInv(s, gg, x, StepOf(s, env, x), env.dt);
    }
  }

  /** One object's update changes only that object. */
  lemma ActStepEvolves(s: Scene, env: Env, gg: GameGroups, x: ObjId)
    requires Steppable(s, gg, x) && env.dt >= 0.0
    ensures Evolved(s, ActStep(s, env, gg, x), [x], env.dt)
  {
    if x in s.actors {
      ApplyEvolves(s, gg, x, StepOf(s, env, x), env.dt);
    }
  }

  // ---------------------------------------------------------------------------
  // One frame: the passes before and after the player

  /** An object a pass stands on has an actor: only enemies and platforms join the
      group updated before the player, only bullets and flashes the one after. */
  lemma PassMemberIsActor(s: Scene, gg: GameGroups, gid: GroupId, pos: nat)
    requires SceneInv(s, gg) && (gid == gg.preUpdate || gid == gg.postUpdate)
    requires pos < |s.world.groups[gid].list|
    ensures var x := s.world.groups[gid].list[pos];
      && x in s.world.objects && x in s.actors
      && (gid == gg.postUpdate ==> s.actors[x].BulletActor? || s.actors[x].FlashActor?)
  {
    var g := s.world.groups[gid];
    var x := g.list[pos];
    assert x in Elems(g.list);
    assert Joined(s.world, x, gid);
    assert RecordsFit(s.world.objects[x].groups, ActorAt(s, x), gg);
  }

  /** The object's update leaves the list the pass walks as it was, and the rest
      of the pass the same: a shot joins none of the pass's group, or is never
      fired in the pass after the player, and a kill only marks the object the
      pass has passed. */
  lemma ActStepKeepsPass(s: Scene, env: Env, gg: GameGroups, gid: GroupId, pos: nat)
    requires SceneInv(s, gg) && env.dt >= 0.0 && (gid == gg.preUpdate || gid == gg.postUpdate)
    requires pos < |s.world.groups[gid].list|
    ensures Steppable(s, gg, s.world.groups[gid].list[pos])
    ensures var r := ActStep(s, env, gg, s.world.groups[gid].list[pos]);
      && SceneInv(r, gg)
      && r.world.groups[gid].list == s.world.groups[gid].list
      && YieldFrom(r.world.groups[gid], Advance(r.world.groups[gid], pos))
         == YieldFrom(s.world.groups[gid], Advance(s.world.groups[gid], pos))
  {
    var x := s.world.groups[gid].list[pos];
    PassMemberIsActor(s, gg, gid, pos);
    ActStepKeepsInv(s, env, gg, x);
    InvNoDangling(s.world);
    var st := StepOf(s, env, x);
    assert PassReady(s.world, gid);
    if st.shot.Some? {
      assert gid == gg.preUpdate;
      PreUpdateApart(gg);
    }
    ApplyKeepsGroup(s, gg, x, st, gid, pos);
  }

  lemma PreUpdateApart(gg: GameGroups)
    requires ShotGroupsApart(gg)
    ensures gg.preUpdate !in ShotGroups(gg)
  {
  }

  /** An update of the object a pass stands on whose shot, if any, joins none of
      the pass's group leaves the pass's list and the rest of the pass alone. */
  lemma ApplyKeepsGroup(s: Scene, gg: GameGroups, x: ObjId, st: Stepped, gid: GroupId, pos: nat)
    requires IssuedBelow(s.world) && GroupsExist(s.world, gg) && s.actors.Keys <= s.world.objects.Keys
    requires x in s.actors && PassReady(s.world, gid) && pos < |s.world.groups[gid].list|
    requires x == s.world.groups[gid].list[pos]
    requires st.shot.Some? ==> gid !in ShotGroups(gg)
    ensures var r := Apply(s, gg, x, st);
      && r.world.groups[gid].list == s.world.groups[gid].list
      && YieldFrom(r.world.groups[gid], Advance(r.world.groups[gid], pos))
         == YieldFrom(s.world.groups[gid], Advance(s.world.groups[gid], pos))
  {
    var fired := if st.shot.Some? then Fire(s, gg, x, OwnerOf(s, x), st.shot.value) else s;
    if st.shot.Some? {
      FireOtherGroup(s, gg, x, OwnerOf(s, x), st.shot.value, gid);
    }
    assert fired.world.groups[gid] == s.world.groups[gid];
    KillCurrentKeepsPass(fired.world, gid, pos, st.dies);
  }

  /** `for (GameObject* object : group) object->Update(timeslice);` from position
      `pos`, for the group updated before the player or the one updated after it,
      reading the group afresh at each step. */
  function UpdatePass(s: Scene, env: Env, gg: GameGroups, gid: GroupId, pos: nat): Scene
    requires SceneInv(s, gg) && env.dt >= 0.0 && (gid == gg.preUpdate || gid == gg.postUpdate)
    requires pos <= |s.world.groups[gid].list|
    decreases |s.world.groups[gid].list| - pos
  {
    if pos == |s.world.groups[gid].list| then s
    else
      ActStepKeepsPass(s, env, gg, gid, pos);
      var s1 := ActStep(s, env, gg, s.world.groups[gid].list[pos]);
      UpdatePass(s1, env, gg, gid, Advance(s1.world.groups[gid], pos))
  }

  /** A pass keeps the scene invariant and updates exactly the objects the group's
      iteration yields, each once, with the kills their updates make. */
  lemma {:induction false} UpdatePassEvolves(s: Scene, env: Env, gg: GameGroups, gid: GroupId, pos: nat)
    requires SceneInv(s, gg) && env.dt >= 0.0 && (gid == gg.preUpdate || gid == gg.postUpdate)
    requires pos <= |s.world.groups[gid].list|
    ensures SceneInv(UpdatePass(s, env, gg, gid, pos), gg)
    ensures Evolved(s, UpdatePass(s, env, gg, gid, pos), YieldFrom(s.world.groups[gid], pos), env.dt)
    decreases |s.world.groups[gid].list| - pos
  {
    var g := s.world.groups[gid];
    if pos < |g.list| {
      var x := g.list[pos];
      ActStepKeepsPass(s, env, gg, gid, pos);
      var s1 := ActStep(s, env, gg, x);
      var next := Advance(s1.world.groups[gid], pos);
      ActStepEvolves(s, env, gg, x);
      UpdatePassEvolves(s1, env, gg, gid, next);
      NoRevisit(g, pos, pos);
      var rest := YieldFrom(g, Advance(g, pos));
      assert YieldFrom(g, pos) == [x] + rest;
      EvolvedTrans(s, s1, UpdatePass(s1, env, gg, gid, next), [x], rest, env.dt);
    }
  }

  /** A whole pass over the group updated before the player or after it. */
  function UpdateGroup(s: Scene, env: Env, gg: GameGroups, gid: GroupId): (r: Scene)
    requires SceneInv(s, gg) && env.dt >= 0.0 && (gid == gg.preUpdate || gid == gg.postUpdate)
    ensures SceneInv(r, gg)
    ensures Evolved(s, r, Iterate(s.world.groups[gid]), env.dt)
  {
    UpdatePassEvolves(s, env, gg, gid, 0);
    UpdatePass(s, env, gg, gid, 0)
  }

  // ---------------------------------------------------------------------------
  // One frame: the player

  /** A platform as one of the player's obstacles: its handle, hitbox, last hitbox
      and velocity. */
  function PlatformObstacle(x: ObjId, p: Platform.PlatformState): Player.Obstacle
  {
    Player.Obstacle(x, p.hitbox, p.previous, p.Velocity())
  }

  /** The obstacles the player's collisions walk, in the order of `ids`: the k-th
      obstacle is the k-th platform. */
  function ObstaclesOf(s: Scene, ids: seq<ObjId>): (r: seq<Player.Obstacle>)
    requires forall x :: x in ids ==> x in s.actors && s.actors[x].PlatformActor?
    ensures |r| == |ids|
    ensures forall k :: 0 <= k < |ids| ==> r[k] == PlatformObstacle(ids[k], s.actors[ids[k]].platform)
    decreases |ids|
  {
    if ids == [] then []
    else [PlatformObstacle(ids[0], s.actors[ids[0]].platform)] + ObstaclesOf(s, ids[1..])
  }

  /** Everything the collision group yields is a platform. */
  lemma ObstaclesArePlatforms(s: Scene, gg: GameGroups)
    requires SceneInv(s, gg)
    ensures forall x :: x in Iterate(s.world.groups[gg.collision]) ==> x in s.actors && s.actors[x].PlatformActor?
  {
    var g := s.world.groups[gg.collision];
    IterateProperties(g);
    forall x | x in Iterate(g)
      ensures x in s.actors && s.actors[x].PlatformActor?
    {
      assert x in Elems(g.list);
      assert Joined(s.world, x, gg.collision);
      assert RecordsFit(s.world.objects[x].groups, ActorAt(s, x), gg);
    }
  }

  /** The player's own update: the input, then the movement against the platforms
      of the collision group as the scene holds them.  Returns the new player
      state and the shot the input fired, if any. */
  function PlayerMoves(s: Scene, env: Env, gg: GameGroups): (u: (Player.PlayerState, Option<Entity.Shot>))
    requires SceneInv(s, gg) && env.dt >= 0.0
    ensures u.0.previous == s.player.hitbox
    ensures u.0.entity.health == s.player.entity.health && u.0.entity.killed == s.player.entity.killed
    ensures u.1.Some? <==> env.keys.fire && Entity.CanFireBullet(s.player.entity)
  {
    ObstaclesArePlatforms(s, gg);
    var obstacles := ObstaclesOf(s, Iterate(s.world.groups[gg.collision]));
    Player.Update(s.player, env.dt, env.keys, env.query, obstacles, env.classify)
  }

  /** Where the flash of the player's shot is placed from: the player's hitbox
      before the move, and the ducking the input set. */
  function PlayerOwner(s: Scene, env: Env): Option<Bullet.Owner>
  {
    Some(Bullet.Owner(s.player.hitbox, env.keys.down && s.player.onFloor))
  }

  /** Store the player's new state and handle its shot by the game's firing rule. */
  function PlayerApply(s: Scene, gg: GameGroups, u: (Player.PlayerState, Option<Entity.Shot>), owner: Option<Bullet.Owner>)
    : (r: Scene)
    requires IssuedBelow(s.world) && GroupsExist(s.world, gg) && s.actors.Keys <= s.world.objects.Keys
    ensures r.playerId == s.playerId && r.player == u.0
    ensures (r.world.objects.Keys != s.world.objects.Keys) <==> u.1.Some?
  {
    var moved := s.(player := u.0);
    if u.1.Some? then
      var fired := FireBullet(moved.world, gg, u.1.value.isPlayerBullet);
      assert fired.1 in Fire(moved, gg, s.playerId, owner, u.1.value).world.objects;
      Fire(moved, gg, s.playerId, owner, u.1.value)
    else moved
  }

  /** `mPlayer->Update(timeslice)`: the player moves from where it stood and keeps
      its health and killed flag, and its shot adds objects exactly when the fire
      key is held and the cooldown has elapsed.  The move reads the collision
      group after the shot, which the shot leaves alone
      (`PlayerShotKeepsObstacles`). */
  function PlayerStep(s: Scene, env: Env, gg: GameGroups): (r: Scene)
    requires SceneInv(s, gg) && env.dt >= 0.0
    ensures r.playerId == s.playerId && r.player.previous == s.player.hitbox
    ensures r.player.entity.health == s.player.entity.health && r.player.entity.killed == s.player.entity.killed
    ensures (r.world.objects.Keys != s.world.objects.Keys) <==> env.keys.fire && Entity.CanFireBullet(s.player.entity)
  {
    PlayerApply(s, gg, PlayerMoves(s, env, gg), PlayerOwner(s, env))
  }

  /** The shot the player fires joins none of the collision group. */
  lemma PlayerShotKeepsObstacles(s: Scene, env: Env, gg: GameGroups)
    requires SceneInv(s, gg) && env.dt >= 0.0
    ensures PlayerStep(s, env, gg).world.groups[gg.collision] == s.world.groups[gg.collision]
  {
    var u := PlayerMoves(s, env, gg);
    PlayerApplyOtherGroup(s, gg, u, PlayerOwner(s, env), gg.collision);
  }

  lemma PlayerApplyOtherGroup(s: Scene, gg: GameGroups, u: (Player.PlayerState, Option<Entity.Shot>),
                              owner: Option<Bullet.Owner>, h: GroupId)
    requires IssuedBelow(s.world) && GroupsExist(s.world, gg) && s.actors.Keys <= s.world.objects.Keys
    requires h in s.world.groups && h !in ShotGroups(gg)
    ensures PlayerApply(s, gg, u, owner).world.groups[h] == s.world.groups[h]
  {
    if u.1.Some? {
      FireOtherGroup(s.(player := u.0), gg, s.playerId, owner, u.1.value, h);
    }
  }

  /** Old objects and actors are unchanged. */
  ghost predicate Kept(s: Scene, r: Scene)
  {
    && r.playerId == s.playerId
    && (forall y :: y in s.world.objects ==> y in r.world.objects && r.world.objects[y] == s.world.objects[y])
    && (forall y :: y in s.actors ==> y in r.actors && r.actors[y] == s.actors[y])
  }

  /** A new player state with a health in range keeps the scene invariant. */
  lemma NewPlayerKeepsInv(s: Scene, gg: GameGroups, p: Player.PlayerState)
    requires SceneInv(s, gg) && 0 <= p.entity.health < 0x8000_0000
    ensures SceneInv(s.(player := p), gg)
  {
    assert AllFit(s.(player := p), gg) by {
      forall y | y in s.world.objects
        ensures RecordsFit(s.world.objects[y].groups, ActorAt(s.(player := p), y), gg)
      {
        assert ActorAt(s.(player := p), y) == ActorAt(s, y);
      }
    }
  }

  /** The player's update keeps the scene invariant and changes no object other
      than the player. */
  lemma PlayerStepKeepsInv(s: Scene, env: Env, gg: GameGroups)
    requires SceneInv(s, gg) && env.dt >= 0.0
    ensures SceneInv(PlayerStep(s, env, gg), gg) && Kept(s, PlayerStep(s, env, gg))
  {
    PlayerApplyKeepsInv(s, gg, PlayerMoves(s, env, gg), PlayerOwner(s, env));
  }

  lemma PlayerApplyKeepsInv(s: Scene, gg: GameGroups, u: (Player.PlayerState, Option<Entity.Shot>), owner: Option<Bullet.Owner>)
    requires SceneInv(s, gg) && 0 <= u.0.entity.health < 0x8000_0000
    ensures SceneInv(PlayerApply(s, gg, u, owner), gg) && Kept(s, PlayerApply(s, gg, u, owner))
  {
    NewPlayerKeepsInv(s, gg, u.0);
    if u.1.Some? {
      FireKeepsInv(s.(player := u.0), gg, s.playerId, owner, u.1.value);
    }
  }

  // ---------------------------------------------------------------------------
  // One frame: the collisions and the end of the frame

  /** The enemies' entities, by handle. */
  function Enemies(s: Scene): (m: map<ObjId, Entity.EntityState>)
    ensures forall x :: x in m <==> x in s.actors && s.actors[x].EnemyActor?
    ensures forall x :: x in m ==> m[x] == s.actors[x].enemy.entity
  {
    map x | x in s.actors && s.actors[x].EnemyActor? :: s.actors[x].enemy.entity
  }

  /** The bounds the collision passes read: the player's, an enemy's or a
      platform's hitbox, and a bullet's sprite bounds at its position.  A flash is
      never tested; the model gives it empty bounds at its position. */
  function HitboxOf(s: Scene, env: Env, x: ObjId): Rect
  {
    if x == s.playerId then s.player.hitbox
    else if x !in s.actors then Rect(0.0, 0.0, 0.0, 0.0)
    else match s.actors[x]
      case EnemyActor(e) => e.hitbox
      case PlatformActor(p) => p.hitbox
      case BulletActor(b) => env.bulletBounds(b.position)
      case FlashActor(f) => RectAt(f.position, Zero)
  }

  function Hitboxes(s: Scene, env: Env): ObjId -> Rect
  {
    (x: ObjId) => HitboxOf(s, env, x)
  }

  /** Store the enemies' entities after the hits; nothing else changes. */
  function WriteBack(actors: map<ObjId, Actor>, enemies: map<ObjId, Entity.EntityState>): (r: map<ObjId, Actor>)
    ensures r.Keys == actors.Keys
    ensures forall x :: x in actors ==> SameKind(actors[x], r[x])
    ensures forall x :: x in actors && !(actors[x].EnemyActor? && x in enemies) ==> r[x] == actors[x]
    ensures forall x :: x in actors && actors[x].EnemyActor? && x in enemies ==>
                        r[x].EnemyActor? && r[x].enemy.entity == enemies[x] && r[x].enemy.hitbox == actors[x].enemy.hitbox
  {
    map x | x in actors :: if actors[x].EnemyActor? && x in enemies then EnemyActor(actors[x].enemy.(entity := enemies[x])) else actors[x]
  }

  /** Every member of the group of enemies that can be hit is an enemy. */
  lemma VulnerableAreEnemies(s: Scene, gg: GameGroups)
    requires SceneInv(s, gg)
    ensures forall e :: e in s.world.groups[gg.vulnerable].list ==> e in Enemies(s)
  {
    var g := s.world.groups[gg.vulnerable];
    forall e | e in g.list
      ensures e in Enemies(s)
    {
      assert e in Elems(g.list);
      assert Joined(s.world, e, gg.vulnerable);
      assert RecordsFit(s.world.objects[e].groups, ActorAt(s, e), gg);
    }
  }

  /** `BulletCollision()` on the scene: the hits reach the enemies' and the
      player's entities. */
  function Collide(s: Scene, env: Env, gg: GameGroups): (r: (Scene, Collided))
    requires SceneInv(s, gg)
    ensures r.0.playerId == s.playerId
    ensures s.player.entity.health - 1 <= r.0.player.entity.health <= s.player.entity.health
  {
    VulnerableAreEnemies(s, gg);
    var c := BulletCollision(s.world, gg, Enemies(s), s.player.entity, s.playerId, s.player.hitbox,
                             Hitboxes(s, env), env.query, env.mask);
    (Scene(c.world, WriteBack(s.actors, c.enemies), s.player.(entity := c.player), s.playerId), c)
  }

  /** What the collisions leave: the same objects with the same groups and the
      same kinds of actor, no killed flag cleared, the actors' own killed flags
      unchanged, and a player that took at most one hit. */
  ghost predicate CollisionEffects(s: Scene, r: Scene)
  {
    && r.playerId == s.playerId && r.world.objects.Keys == s.world.objects.Keys
    && r.world.groups.Keys == s.world.groups.Keys
    && (forall y :: y in s.world.objects ==> r.world.objects[y].groups == s.world.objects[y].groups)
    && (forall y :: y in s.world.objects && s.world.objects[y].killed ==> r.world.objects[y].killed)
    && r.actors.Keys == s.actors.Keys
    && (forall y :: y in s.actors ==> SameKind(s.actors[y], r.actors[y]) && OwnFlag(r.actors[y]) == OwnFlag(s.actors[y]))
    && (forall y :: y in s.actors && s.actors[y].FlashActor? ==> r.actors[y] == s.actors[y])
    && (r.player.entity == s.player.entity || r.player.entity == Entity.Demage(s.player.entity))
  }

  lemma CollideEffects(s: Scene, env: Env, gg: GameGroups)
    requires SceneInv(s, gg)
    ensures WorldInv(Collide(s, env, gg).0.world) && CollisionEffects(s, Collide(s, env, gg).0)
  {
    VulnerableAreEnemies(s, gg);
    var c := BulletCollision(s.world, gg, Enemies(s), s.player.entity, s.playerId, s.player.hitbox,
                             Hitboxes(s, env), env.query, env.mask);
    BulletCollisionKills(s.world, gg, Enemies(s), s.player.entity, s.playerId, s.player.hitbox,
                         Hitboxes(s, env), env.query, env.mask);
    WrittenBack(s, c);
  }

  /** The scene the collision results `c` make of `s`. */
  lemma WrittenBack(s: Scene, c: Collided)
    requires SameShape(s.world, c.world)
    requires forall y :: y in s.world.objects && s.world.objects[y].killed ==> c.world.objects[y].killed
    requires c.enemies.Keys == Enemies(s).Keys
    requires forall e :: e in Enemies(s) ==> c.enemies[e].killed == Enemies(s)[e].killed
    requires c.player == s.player.entity || c.player == Entity.Demage(s.player.entity)
    ensures CollisionEffects(s, Scene(c.world, WriteBack(s.actors, c.enemies), s.player.(entity := c.player), s.playerId))
  {
    var r := Scene(c.world, WriteBack(s.actors, c.enemies), s.player.(entity := c.player), s.playerId);
    forall y | y in s.actors
      ensures OwnFlag(r.actors[y]) == OwnFlag(s.actors[y])
    {
      if s.actors[y].EnemyActor? && y in c.enemies {
        assert y in Enemies(s);
      }
    }
  }

  lemma CollisionFits(s: Scene, r: Scene, gg: GameGroups)
    requires AllFit(s, gg) && CollisionEffects(s, r)
    ensures AllFit(r, gg)
  {
    forall y | y in r.world.objects
      ensures RecordsFit(r.world.objects[y].groups, ActorAt(r, y), gg)
    {
      if y in s.actors {
        SameKindFits(s.world.objects[y].groups, s.actors[y], r.actors[y], gg);
      }
    }
  }

  /** The collisions keep the scene invariant. */
  lemma CollisionKeepsInv(s: Scene, r: Scene, gg: GameGroups)
    requires SceneInv(s, gg) && WorldInv(r.world) && CollisionEffects(s, r)
    ensures SceneInv(r, gg)
  {
    CollisionFits(s, r, gg);
  }

  /** The fall check and the game-over test: the scene invariant is kept and the
      game is over exactly when the health the fall check leaves is zero. */
  function Fall(s: Scene, env: Env, gg: GameGroups): (r: (Scene, bool))
    requires SceneInv(s, gg)
    ensures SceneInv(r.0, gg) && r.0.world == s.world && r.0.actors == s.actors
    ensures r.1 <==> r.0.player.entity.health == 0
    ensures s.player.entity.health - 1 <= r.0.player.entity.health <= s.player.entity.health
  {
    var finished := FinishUpdate(s.player, env.start, env.spriteSize);
    NewPlayerKeepsInv(s, gg, finished.0);
    (s.(player := finished.0), finished.1)
  }

  /** The bullet collisions, then `Fall`, on the scene both passes and the player
      have updated: the scene invariant is kept, and the player loses at most one
      health point to a bullet and one to a fall. */
  function Close(s: Scene, env: Env, gg: GameGroups): (r: (Collided, Scene, bool))
    requires SceneInv(s, gg)
    ensures SceneInv(r.1, gg)
    ensures r.2 <==> r.1.player.entity.health == 0
    ensures s.player.entity.health - 2 <= r.1.player.entity.health <= s.player.entity.health
  {
    CollideEffects(s, env, gg);
    CollisionKeepsInv(s, Collide(s, env, gg).0, gg);
    var collided := Collide(s, env, gg);
    var fallen := Fall(collided.0, env, gg);
    (collided.1, fallen.0, fallen.1)
  }

  /** The pass before the player, the player and the pass after it. */
  function Move(s: Scene, env: Env, gg: GameGroups): (r: (Scene, Scene, Scene))
    requires SceneInv(s, gg) && env.dt >= 0.0
    ensures SceneInv(r.0, gg) && SceneInv(r.1, gg) && SceneInv(r.2, gg)
    ensures Evolved(s, r.0, Iterate(s.world.groups[gg.preUpdate]), env.dt)
    ensures r.1.player.previous == r.0.player.hitbox
    ensures Evolved(r.1, r.2, Iterate(r.1.world.groups[gg.postUpdate]), env.dt)
    ensures r.2.player.entity.health == s.player.entity.health
  {
    var pre := UpdateGroup(s, env, gg, gg.preUpdate);
    PlayerStepKeepsInv(pre, env, gg);
    var played := PlayerStep(pre, env, gg);
    (pre, played, UpdateGroup(played, env, gg, gg.postUpdate))
  }

  /** The game's update: the frame's phases in the order the game runs them, and
      whether the game-over screen is pushed. */
  datatype Phases = Phases(
    afterPre: Scene,        // the objects updated before the player
    afterPlayer: Scene,     // the player updated
    afterPost: Scene,       // the objects updated after the player
    collided: Collided,     // the bullet collisions, as the registry and the entities saw them
    final: Scene,           // the fall check applied
    gameOver: bool)

  /** `GameLayer::Update`: the pass before the player, the player, the pass after
      the player, then `Close`. The frame keeps the scene invariant; the pass
      before the player updates what the start of the frame yields, the pass
      after it what the world after the player yields; the game is over exactly
      when the final health is zero, and the player loses at most two health
      points (one hit by a bullet, one fall). */
  function Update(s: Scene, env: Env, gg: GameGroups): (r: Phases)
    requires SceneInv(s, gg) && env.dt >= 0.0
    ensures SceneInv(r.afterPre, gg) && SceneInv(r.afterPlayer, gg) && SceneInv(r.afterPost, gg)
    ensures SceneInv(r.final, gg)
    ensures Evolved(s, r.afterPre, Iterate(s.world.groups[gg.preUpdate]), env.dt)
    ensures r.afterPlayer.player.previous == r.afterPre.player.hitbox
    ensures Evolved(r.afterPlayer, r.afterPost, Iterate(r.afterPlayer.world.groups[gg.postUpdate]), env.dt)
    ensures r.gameOver <==> r.final.player.entity.health == 0
    ensures s.player.entity.health - 2 <= r.final.player.entity.health <= s.player.entity.health
  {
    var moved := Move(s, env, gg);
    var closed := Close(moved.2, env, gg);
    Phases(moved.0, moved.1, moved.2, closed.0, closed.1, closed.2)
  }

  /** A player bullet already dead when the collisions start deals damage only when
      it is the first committed player bullet: the group's iteration yields the
      first element without checking it. */
  lemma CloseDeadBulletHitsOnlyAsFirst(s: Scene, env: Env, gg: GameGroups)
    requires SceneInv(s, gg)
    ensures forall p :: p in Close(s, env, gg).0.hits && p.0 in s.world.objects && s.world.objects[p.0].killed
                        && gg.playerBullets in s.world.objects[p.0].groups ==>
                        s.world.groups[gg.playerBullets].list != [] && p.0 == s.world.groups[gg.playerBullets].list[0]
  {
    VulnerableAreEnemies(s, gg);
    DeadBulletsHitOnlyFirst(s.world, gg, Enemies(s), s.player.entity, s.playerId, s.player.hitbox,
                            Hitboxes(s, env), env.query, env.mask);
  }

  /** A player bullet whose time runs out in the pass after the player is killed
      there, yet still deals damage in the same frame's collisions when it is the
      first committed player bullet; any later one is skipped. */
  lemma ExpiredBulletHitsOnlyAsFirst(s: Scene, env: Env, gg: GameGroups)
    requires SceneInv(s, gg) && env.dt >= 0.0
    ensures var r := Update(s, env, gg);
      forall p :: p in r.collided.hits && p.0 in r.afterPlayer.actors
                  && p.0 in Iterate(r.afterPlayer.world.groups[gg.postUpdate])
                  && Dies(r.afterPlayer.actors[p.0], env.dt)
                  && gg.playerBullets in r.afterPlayer.world.objects[p.0].groups ==>
                  r.afterPost.world.groups[gg.playerBullets].list != []
                  && p.0 == r.afterPost.world.groups[gg.playerBullets].list[0]
  {
    var m := Move(s, env, gg);
    CloseDeadBulletHitsOnlyAsFirst(m.2, env, gg);
  }
}
