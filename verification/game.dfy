/** The game layer's own rules: where a fired bullet and its flash are registered,
    how bullets collide with the level, the obstacles, the enemies and the
    player, what happens after the collisions of a frame, and the fixed-timestep
    loop that drives the frames.

    The game keeps its objects in groups of the object registry.  Passes over a
    group follow the group's iteration: the first committed element is always
    visited, later ones only when they are not queued for removal at the moment
    the pass reaches them.  Killing an object queues its removal in every group it
    joined, so a bullet killed by one pass is skipped by the later passes of the
    same frame, except when it is the first element of a group's list.

    Hitboxes enter as the parameter `hitbox`; the pixel-mask test that confirms a
    hit between a bullet and a character is not part of this model and enters as
    the parameter `mask`; the collision layer's query enters as `query`. */
module Game {
  import opened Wrappers
  import opened Geometry
  import opened Groups
  import opened Registry
  import Entity
  import Player
  import Layers

  /** The groups the game keeps, by the role each plays. */
  datatype GameGroups = GameGroups(
    draw: GroupId,
    preUpdate: GroupId,
    postUpdate: GroupId,
    bullets: GroupId,
    playerBullets: GroupId,
    enemyBullets: GroupId,
    collision: GroupId,
    vulnerable: GroupId)

  predicate GroupsExist(w: World, gg: GameGroups)
  {
    && gg.draw in w.groups && gg.preUpdate in w.groups && gg.postUpdate in w.groups
    && gg.bullets in w.groups && gg.playerBullets in w.groups && gg.enemyBullets in w.groups
    && gg.collision in w.groups && gg.vulnerable in w.groups
  }

  datatype Tint = White | Purple

  // ---------------------------------------------------------------------------
  // Registering a shot

  /** Join `id` to each group of `gs`, in order. */
  function JoinAll(w: World, id: ObjId, gs: seq<GroupId>): (r: World)
    requires id in w.objects && !w.objects[id].killed
    requires forall g :: g in gs ==> g in w.groups
    ensures r.objects.Keys == w.objects.Keys && r.groups.Keys == w.groups.Keys && r.nextId == w.nextId
    ensures r.objects[id] == ObjectState(w.objects[id].groups + Elems(gs), false)
    ensures forall o :: o in w.objects && o != id ==> r.objects[o] == w.objects[o]
    ensures forall h :: h in w.groups && h !in gs ==> r.groups[h] == w.groups[h]
    ensures forall h :: h in gs ==> id !in r.groups[h].removalQueue && (id in r.groups[h].list || id in r.groups[h].addQueue)
    decreases |gs|
  {
    if gs == [] then w
    else
      var init := gs[..|gs| - 1];
      assert forall g :: g in gs <==> g in init || g == gs[|gs| - 1];
      AddToGroup(JoinAll(w, id, init), id, gs[|gs| - 1])
  }

  lemma {:induction false} JoinAllKeepsInv(w: World, id: ObjId, gs: seq<GroupId>)
    requires WorldInv(w) && id in w.objects && !w.objects[id].killed
    requires forall g :: g in gs ==> g in w.groups
    ensures WorldInv(JoinAll(w, id, gs))
    decreases |gs|
  {
    if gs != [] {
      var init := gs[..|gs| - 1];
      assert forall g :: g in init ==> g in gs;
      JoinAllKeepsInv(w, id, init);
      AddToGroupKeepsInv(JoinAll(w, id, init), id, gs[|gs| - 1]);
    }
  }

  /** The groups a bullet joins: drawn, updated after the player, checked against the
      level, and checked against the enemies (a player's bullet) or the player (an
      enemy's). */
  function BulletGroups(gg: GameGroups, isPlayerBullet: bool): set<GroupId>
  {
    {gg.draw, gg.postUpdate, gg.bullets} + {SideGroup(gg, isPlayerBullet)}
  }

  /** Create an object and join it to each group of `gs`, in order. */
  function Spawn(w: World, gs: seq<GroupId>): (r: (World, ObjId))
    requires IssuedBelow(w) && forall g :: g in gs ==> g in w.groups
    ensures r.1 !in w.objects && forall id :: id in r.0.objects <==> id in w.objects || id == r.1
    ensures r.0.objects[r.1] == ObjectState(Elems(gs), false)
    ensures forall id :: id in w.objects ==> r.0.objects[id] == w.objects[id]
    ensures (forall g :: g in r.0.groups <==> g in w.groups) && IssuedBelow(r.0)
    ensures forall h :: h in w.groups && h !in gs ==> r.0.groups[h] == w.groups[h]
  {
    var (w1, id) := CreateGameObject(w);
    (JoinAll(w1, id, gs), id)
  }

  lemma SpawnKeepsInv(w: World, gs: seq<GroupId>)
    requires WorldInv(w) && forall g :: g in gs ==> g in w.groups
    ensures WorldInv(Spawn(w, gs).0)
  {
    CreateKeepsInv(w);
    JoinAllKeepsInv(CreateGameObject(w).0, CreateGameObject(w).1, gs);
  }

  /** Create the bullet, join it to the drawn, post-update and bullet groups, then
      create the flash and join it to the drawn and post-update groups. */
  function SpawnPair(w: World, gg: GameGroups): (r: (World, ObjId, ObjId))
    requires IssuedBelow(w) && GroupsExist(w, gg)
    ensures r.1 !in w.objects && r.2 !in w.objects && r.1 != r.2
    ensures forall id :: id in r.0.objects <==> id in w.objects || id == r.1 || id == r.2
    ensures forall id :: id in w.objects ==> r.0.objects[id] == w.objects[id]
    ensures r.0.groups.Keys == w.groups.Keys && GroupsExist(r.0, gg) && IssuedBelow(r.0)
  {
    var first := Spawn(w, [gg.draw, gg.postUpdate, gg.bullets]);
    var second := Spawn(first.0, [gg.draw, gg.postUpdate]);
    (second.0, first.1, second.1)
  }

  /** The two spawns change no group but the drawn, post-update and bullet groups. */
  lemma SpawnPairOtherGroup(w: World, gg: GameGroups, h: GroupId)
    requires IssuedBelow(w) && GroupsExist(w, gg)
    requires h in w.groups && h != gg.draw && h != gg.postUpdate && h != gg.bullets
    ensures SpawnPair(w, gg).0.groups[h] == w.groups[h]
  {
    var gs1, gs2 := [gg.draw, gg.postUpdate, gg.bullets], [gg.draw, gg.postUpdate];
    assert h !in gs1 && h !in gs2;
    var first := Spawn(w, gs1);
    assert first.0.groups[h] == w.groups[h];
  }

  /** What the two spawns make of the bullet and the flash. */
  lemma SpawnPairStates(w: World, gg: GameGroups)
    requires IssuedBelow(w) && GroupsExist(w, gg)
    ensures var r := SpawnPair(w, gg);
      && r.0.objects[r.1] == ObjectState({gg.draw, gg.postUpdate, gg.bullets}, false)
      && r.0.objects[r.2] == ObjectState({gg.draw, gg.postUpdate}, false)
  {
    RouteElems(gg.draw, gg.postUpdate, gg.bullets);
    var first := Spawn(w, [gg.draw, gg.postUpdate, gg.bullets]);
    var second := Spawn(first.0, [gg.draw, gg.postUpdate]);
    assert second.0.objects[first.1] == first.0.objects[first.1];
  }

  /** Create a bullet and its muzzle flash and register them with their groups: the
      bullet with the drawn, post-update and bullet groups, the flash with the drawn
      and post-update groups, then the bullet with the group of its side.  Player
      bullets are tinted purple, enemy bullets keep their colour. */
  function FireBullet(w: World, gg: GameGroups, isPlayerBullet: bool): (r: (World, ObjId, ObjId, Tint))
    requires IssuedBelow(w) && GroupsExist(w, gg)
    ensures r.1 !in w.objects && r.2 !in w.objects && r.1 != r.2
    ensures forall id :: id in r.0.objects <==> id in w.objects || id == r.1 || id == r.2
    ensures forall id :: id in w.objects ==> r.0.objects[id] == w.objects[id]
    ensures r.0.groups.Keys == w.groups.Keys && GroupsExist(r.0, gg) && IssuedBelow(r.0)
    ensures r.3 == Purple <==> isPlayerBullet
  {
    var spawned := SpawnPair(w, gg);
    (AddToGroup(spawned.0, spawned.1, SideGroup(gg, isPlayerBullet)), spawned.1, spawned.2, TintOf(isPlayerBullet))
  }

  /** Firing changes only the groups the bullet joins (the flash joins a subset of
      them): in particular the other side's bullet group is left alone. */
  lemma FireBulletOtherGroup(w: World, gg: GameGroups, isPlayerBullet: bool, h: GroupId)
    requires IssuedBelow(w) && GroupsExist(w, gg)
    requires h in w.groups && h !in BulletGroups(gg, isPlayerBullet)
    ensures FireBullet(w, gg, isPlayerBullet).0.groups[h] == w.groups[h]
  {
    SpawnPairOtherGroup(w, gg, h);
  }

  /** The bullet is in the drawing, post-update and bullet groups and in its side's
      group, the flash in the drawing and post-update groups only; neither is dead. */
  lemma FireBulletJoins(w: World, gg: GameGroups, isPlayerBullet: bool)
    requires IssuedBelow(w) && GroupsExist(w, gg)
    ensures var r := FireBullet(w, gg, isPlayerBullet);
      && r.1 in r.0.objects && r.0.objects[r.1] == ObjectState(BulletGroups(gg, isPlayerBullet), false)
      && r.2 in r.0.objects && r.0.objects[r.2] == ObjectState({gg.draw, gg.postUpdate}, false)
  {
    SpawnPairStates(w, gg);
    var spawned := SpawnPair(w, gg);
    var side := SideGroup(gg, isPlayerBullet);
    var r := AddToGroup(spawned.0, spawned.1, side);
    assert r.objects[spawned.1].groups == {gg.draw, gg.postUpdate, gg.bullets} + {side};
    assert r.objects[spawned.2] == spawned.0.objects[spawned.2];
  }

  /** The groups a shot joins. */
  function ShotGroups(gg: GameGroups): set<GroupId>
  {
    {gg.draw, gg.postUpdate, gg.bullets, gg.playerBullets, gg.enemyBullets}
  }

  function SideGroup(gg: GameGroups, isPlayerBullet: bool): GroupId
  {
    if isPlayerBullet then gg.playerBullets else gg.enemyBullets
  }

  function TintOf(isPlayerBullet: bool): Tint
  {
    if isPlayerBullet then Purple else White
  }

  lemma RouteElems(a: GroupId, b: GroupId, c: GroupId)
    ensures Elems([a, b, c]) == {a, b, c} && Elems([a, b]) == {a, b}
  {
    assert forall g :: g in [a, b, c] <==> g == a || g == b || g == c;
  }

  /** Firing keeps the registry's invariant. */
  lemma FireBulletKeepsInv(w: World, gg: GameGroups, isPlayerBullet: bool)
    requires WorldInv(w) && GroupsExist(w, gg)
    ensures WorldInv(FireBullet(w, gg, isPlayerBullet).0)
  {
    var gs1 := [gg.draw, gg.postUpdate, gg.bullets];
    SpawnKeepsInv(w, gs1);
    var first := Spawn(w, gs1);
    SpawnKeepsInv(first.0, [gg.draw, gg.postUpdate]);
    var second := Spawn(first.0, [gg.draw, gg.postUpdate]);
    assert SpawnPair(w, gg) == (second.0, first.1, second.1);
    AddToGroupKeepsInv(second.0, first.1, SideGroup(gg, isPlayerBullet));
  }

  /** Joining groups one after another commits the object at once into a group
      whose list is empty and leaves every other list as it was. */
  lemma {:induction false} JoinAllList(w: World, id: ObjId, gs: seq<GroupId>, h: GroupId)
    requires id in w.objects && !w.objects[id].killed
    requires forall g :: g in gs ==> g in w.groups
    requires h in w.groups && id !in w.groups[h].addQueue
    ensures JoinAll(w, id, gs).groups[h].list ==
              if h in gs && w.groups[h].list == [] then [id] else w.groups[h].list
    decreases |gs|
  {
    if gs != [] {
      var init := gs[..|gs| - 1];
      assert forall g :: g in gs <==> g in init || g == gs[|gs| - 1];
      JoinAllList(w, id, init, h);
    }
  }

  /** A new object joins the empty lists of `gs` at once. */
  lemma SpawnList(w: World, gs: seq<GroupId>, h: GroupId)
    requires WorldInv(w) && (forall g :: g in gs ==> g in w.groups) && h in w.groups
    ensures var r := Spawn(w, gs);
      r.0.groups[h].list == if h in gs && w.groups[h].list == [] then [r.1] else w.groups[h].list
  {
    InvNoDangling(w);
    var (w1, id) := CreateGameObject(w);
    JoinAllList(w1, id, gs, h);
  }

  /** What a shot does to the committed list of the post-update group: into an
      empty list the bullet is committed at once; otherwise the list is unchanged
      and the bullet waits in the add queue. */
  lemma FiredPostList(w: World, gg: GameGroups, isPlayerBullet: bool)
    requires WorldInv(w) && GroupsExist(w, gg)
    ensures var r := FireBullet(w, gg, isPlayerBullet);
      r.0.groups[gg.postUpdate].list ==
        if w.groups[gg.postUpdate].list == [] then [r.1] else w.groups[gg.postUpdate].list
  {
    SpawnPairPostList(w, gg);
  }

  lemma SpawnPairPostList(w: World, gg: GameGroups)
    requires WorldInv(w) && GroupsExist(w, gg)
    ensures var r := SpawnPair(w, gg);
      r.0.groups[gg.postUpdate].list ==
        if w.groups[gg.postUpdate].list == [] then [r.1] else w.groups[gg.postUpdate].list
  {
    var gs1, gs2 := [gg.draw, gg.postUpdate, gg.bullets], [gg.draw, gg.postUpdate];
    assert gg.postUpdate in gs1 && gg.postUpdate in gs2;
    SpawnList(w, gs1, gg.postUpdate);
    SpawnKeepsInv(w, gs1);
    var first := Spawn(w, gs1);
    SpawnList(first.0, gs2, gg.postUpdate);
  }

  /** When the pass after the player first sees a shot: the bullet is updated in
      the frame it was fired exactly when the post-update group's list was empty;
      the flash never is. */
  lemma FiredBulletTiming(w: World, gg: GameGroups, isPlayerBullet: bool)
    requires WorldInv(w) && GroupsExist(w, gg)
    ensures var r := FireBullet(w, gg, isPlayerBullet);
      && (r.1 in Iterate(r.0.groups[gg.postUpdate]) <==> w.groups[gg.postUpdate].list == [])
      && r.2 !in Iterate(r.0.groups[gg.postUpdate])
  {
    var r := FireBullet(w, gg, isPlayerBullet);
    FiredPostList(w, gg, isPlayerBullet);
    InvNoDangling(w);
    IterateProperties(r.0.groups[gg.postUpdate]);
  }

  // ---------------------------------------------------------------------------
  // Kill passes

  /** A pass over `gid` can run: the group is valid and every element of its list
      is owned. */
  predicate PassReady(w: World, gid: GroupId)
  {
    gid in w.groups && Valid(w.groups[gid]) && forall x :: x in w.groups[gid].list ==> x in w.objects
  }

  function KillIf(w: World, x: ObjId, hit: bool): World
    requires x in w.objects
  {
    if hit then Kill(w, x) else w
  }

  /** Killing the element a pass stands on does not change what the rest of the
      pass visits: the kill marks only that element, which the pass has already
      passed. */
  lemma KillCurrentKeepsPass(w: World, gid: GroupId, pos: nat, hit: bool)
    requires PassReady(w, gid) && pos < |w.groups[gid].list|
    ensures var w1 := KillIf(w, w.groups[gid].list[pos], hit);
      && PassReady(w1, gid) && w1.groups[gid].list == w.groups[gid].list
      && YieldFrom(w1.groups[gid], Advance(w1.groups[gid], pos)) == YieldFrom(w.groups[gid], Advance(w.groups[gid], pos))
  {
    var g := w.groups[gid];
    var x := g.list[pos];
    var g1 := KillIf(w, x, hit).groups[gid];
    if g1 != g {
      assert g1 == DeferredRemove(g, x);
      DeferredRemoveKeepsValid(g, x);
      var rest := g.list[pos + 1..];
      YieldAfterSkip(g, pos + 1);
      YieldAfterSkip(g1, pos + 1);
      assert x !in rest by {
        forall k | pos + 1 <= k < |g.list|
          ensures g.list[k] != x
        {
          assert g.list[pos] != g.list[k];
        }
      }
      UnmarkedTwice(rest, g.removalQueue, {x});
      UnmarkedContents(rest, g.removalQueue);
      UnmarkedNothing(Unmarked(rest, g.removalQueue), {x});
    }
  }

  /** The pass `for (obj : group) if (hit(obj)) obj->Kill();` from position `pos`,
      with the group read afresh at each step. */
  function KillPass(w: World, gid: GroupId, pos: nat, hit: ObjId -> bool): World
    requires PassReady(w, gid) && pos <= |w.groups[gid].list|
    decreases |w.groups[gid].list| - pos
  {
    if pos == |w.groups[gid].list| then w
    else
      var x := w.groups[gid].list[pos];
      var w1 := KillIf(w, x, hit(x));
      KillCurrentKeepsPass(w, gid, pos, hit(x));
      KillPass(w1, gid, Advance(w1.groups[gid], pos), hit)
  }

  /** What a kill pass leaves alone: the owned objects, the groups, every committed
      list and every object's recorded groups. */
  predicate SameShape(w: World, r: World)
  {
    && r.objects.Keys == w.objects.Keys && r.groups.Keys == w.groups.Keys && r.nextId == w.nextId
    && (forall h :: h in w.groups ==> r.groups[h].list == w.groups[h].list)
    && (forall x :: x in w.objects ==> r.objects[x].groups == w.objects[x].groups)
  }

  /** A pass keeps the shape of the world, kills exactly the objects it yields that
      `hit` accepts, and changes no other killed flag. */
  lemma {:induction false} KillPassKills(w: World, gid: GroupId, pos: nat, hit: ObjId -> bool)
    requires PassReady(w, gid) && pos <= |w.groups[gid].list|
    ensures SameShape(w, KillPass(w, gid, pos, hit))
    ensures var r := KillPass(w, gid, pos, hit);
      forall x :: x in w.objects ==>
        (r.objects[x].killed <==> w.objects[x].killed || (x in YieldFrom(w.groups[gid], pos) && hit(x)))
    decreases |w.groups[gid].list| - pos
  {
    if pos < |w.groups[gid].list| {
      var g := w.groups[gid];
      var x := g.list[pos];
      var w1 := KillIf(w, x, hit(x));
      KillCurrentKeepsPass(w, gid, pos, hit(x));
      KillPassKills(w1, gid, Advance(w1.groups[gid], pos), hit);
      assert YieldFrom(g, pos) == [x] + YieldFrom(g, Advance(g, pos));
    }
  }

  lemma {:induction false} KillPassKeepsInv(w: World, gid: GroupId, pos: nat, hit: ObjId -> bool)
    requires WorldInv(w) && PassReady(w, gid) && pos <= |w.groups[gid].list|
    ensures WorldInv(KillPass(w, gid, pos, hit))
    decreases |w.groups[gid].list| - pos
  {
    if pos < |w.groups[gid].list| {
      var x := w.groups[gid].list[pos];
      var w1 := KillIf(w, x, hit(x));
      KillCurrentKeepsPass(w, gid, pos, hit(x));
      if hit(x) {
        KillKeepsInv(w, x);
      }
      KillPassKeepsInv(w1, gid, Advance(w1.groups[gid], pos), hit);
    }
  }

  /** A whole pass over an existing group of a world that keeps the invariant. */
  function KillGroupPass(w: World, gid: GroupId, hit: ObjId -> bool): (r: World)
    requires WorldInv(w) && gid in w.groups
    ensures WorldInv(r) && SameShape(w, r)
    ensures forall x :: x in w.objects ==>
      (r.objects[x].killed <==> w.objects[x].killed || (x in Iterate(w.groups[gid]) && hit(x)))
  {
    InvNoDangling(w);
    KillPassKills(w, gid, 0, hit);
    KillPassKeepsInv(w, gid, 0, hit);
    KillPass(w, gid, 0, hit)
  }

  /** A killed object is skipped by every pass over a group it joined, unless it is
      the first committed element, which `begin()` yields without checking. */
  lemma KilledSkipped(w: World, gid: GroupId)
    requires WorldInv(w) && gid in w.groups
    ensures forall x :: x in w.objects && w.objects[x].killed && gid in w.objects[x].groups ==>
                       (x in Iterate(w.groups[gid]) ==> x == w.groups[gid].list[0])
  {
    var g := w.groups[gid];
    IterateProperties(g);
    forall x | x in w.objects && w.objects[x].killed && gid in w.objects[x].groups && x in Iterate(g)
      ensures x == g.list[0]
    {
      var k :| 0 <= k < |Iterate(g)| && Iterate(g)[k] == x;
      assert k == 0;
    }
  }

  /** The first committed element is yielded even when it is killed. */
  lemma FrontKilledStillYielded(w: World, gid: GroupId)
    requires gid in w.groups && w.groups[gid].list != []
    ensures w.groups[gid].list[0] in Iterate(w.groups[gid])
  {
    IterateProperties(w.groups[gid]);
  }

  // ---------------------------------------------------------------------------
  // Bullet collision

  /** The (bullet, enemy) hits of one bullet: the enemies whose hitbox overlaps it and
      whose pixels the mask test confirms, in the order the inner loop visits them. */
  function HitsOf(b: ObjId, enemies: seq<ObjId>, hitbox: ObjId -> Rect, mask: (ObjId, ObjId) -> bool)
    : (hits: seq<(ObjId, ObjId)>)
    ensures forall p :: p in hits <==> p.0 == b && p.1 in enemies && Intersects(hitbox(b), hitbox(p.1)) && mask(b, p.1)
    decreases |enemies|
  {
    if enemies == [] then []
    else
      var rest := HitsOf(b, enemies[1..], hitbox, mask);
      assert forall e :: e in enemies <==> e == enemies[0] || e in enemies[1..];
      if Intersects(hitbox(b), hitbox(enemies[0])) && mask(b, enemies[0]) then [(b, enemies[0])] + rest else rest
  }

  /** Every (bullet, enemy) hit of the enemy pass, in the order the nested loops
      confirm them: a bullet goes on testing the remaining enemies after a hit. */
  function AllHits(bs: seq<ObjId>, enemies: seq<ObjId>, hitbox: ObjId -> Rect, mask: (ObjId, ObjId) -> bool)
    : (hits: seq<(ObjId, ObjId)>)
    ensures forall p :: p in hits <==>
      p.0 in bs && p.1 in enemies && Intersects(hitbox(p.0), hitbox(p.1)) && mask(p.0, p.1)
    decreases |bs|
  {
    if bs == [] then []
    else
      assert forall b :: b in bs <==> b == bs[0] || b in bs[1..];
      HitsOf(bs[0], enemies, hitbox, mask) + AllHits(bs[1..], enemies, hitbox, mask)
  }

  /** Damage each hit enemy, one hit at a time, in hit order. */
  function DamageAll(entities: map<ObjId, Entity.EntityState>, hits: seq<(ObjId, ObjId)>)
    : (r: map<ObjId, Entity.EntityState>)
    requires forall p :: p in hits ==> p.1 in entities
    ensures r.Keys == entities.Keys
    ensures forall e :: e in entities && (forall p :: p in hits ==> p.1 != e) ==> r[e] == entities[e]
    ensures forall e :: e in entities ==> r[e].killed == entities[e].killed
    decreases |hits|
  {
    if hits == [] then entities
    else
      var init := hits[..|hits| - 1];
      assert forall p :: p in hits <==> p in init || p == hits[|hits| - 1];
      var done := DamageAll(entities, init);
      var e := hits[|hits| - 1].1;
      done[e := Entity.Demage(done[e])]
  }

  /** An enemy whose vulnerability window has a positive length loses at most one
      health point to all the hits of a frame: the first hit restarts the window
      and the others find it running. */
  lemma {:induction false} DamagedAtMostOnce(entities: map<ObjId, Entity.EntityState>, hits: seq<(ObjId, ObjId)>, e: ObjId)
    requires forall p :: p in hits ==> p.1 in entities
    requires e in entities && entities[e].vulnerability.duration > 0.0
    ensures var d := DamageAll(entities, hits)[e];
      d == entities[e] || (d.health == entities[e].health - 1 && !d.vulnerability.Finished())
    decreases |hits|
  {
    if hits != [] {
      var init := hits[..|hits| - 1];
      assert forall p :: p in init ==> p in hits;
      DamagedAtMostOnce(entities, init, e);
    }
  }

  /** The first element of `s` that `hit` accepts. */
  function FirstHit(s: seq<ObjId>, hit: ObjId -> bool): (r: Option<nat>)
    ensures r.None? <==> forall k :: 0 <= k < |s| ==> !hit(s[k])
    ensures r.Some? ==> r.value < |s| && hit(s[r.value]) && forall k :: 0 <= k < r.value ==> !hit(s[k])
    decreases |s|
  {
    if s == [] then None
    else if hit(s[0]) then Some(0)
    else match FirstHit(s[1..], hit)
      case None => None
      case Some(k) => Some(k + 1)
  }

  datatype Collided = Collided(
    world: World,
    enemies: map<ObjId, Entity.EntityState>,
    player: Entity.EntityState,
    hits: seq<(ObjId, ObjId)>)        // (player bullet, enemy) pairs that dealt damage

  /** A bullet overlaps a tile of the collision layer. */
  predicate HitsWall(b: ObjId, hitbox: ObjId -> Rect, query: Rect -> seq<Rect>)
  {
    query(hitbox(b)) != []
  }

  /** A bullet overlaps one of the obstacles. */
  predicate HitsObstacle(b: ObjId, obstacles: seq<ObjId>, hitbox: ObjId -> Rect)
  {
    exists k :: 0 <= k < |obstacles| && Intersects(hitbox(b), hitbox(obstacles[k]))
  }

  /** The first two passes: bullets that overlap a tile of the collision layer die,
      then bullets that overlap one of the obstacles die. */
  function EnvironmentPasses(w: World, gg: GameGroups, hitbox: ObjId -> Rect, query: Rect -> seq<Rect>): (r: World)
    requires WorldInv(w) && GroupsExist(w, gg)
    ensures WorldInv(r) && SameShape(w, r)
    ensures forall x :: x in w.objects && w.objects[x].killed ==> r.objects[x].killed
    ensures forall b :: b in w.objects && b in Iterate(w.groups[gg.bullets]) ==>
                       (HitsWall(b, hitbox, query) ==> r.objects[b].killed)
  {
    var w1 := KillGroupPass(w, gg.bullets, (b: ObjId) => HitsWall(b, hitbox, query));
    var obstacles := Iterate(w1.groups[gg.collision]);
    KillGroupPass(w1, gg.bullets, (b: ObjId) => HitsObstacle(b, obstacles, hitbox))
  }

  /** Apply the hits of a frame to the enemies, and show that an enemy with a
      positive vulnerability window loses at most one health point to them. */
  function DamageEnemies(enemies: map<ObjId, Entity.EntityState>, hits: seq<(ObjId, ObjId)>)
    : (r: map<ObjId, Entity.EntityState>)
    requires forall p :: p in hits ==> p.1 in enemies
    ensures r.Keys == enemies.Keys
    ensures forall e :: e in enemies && (forall p :: p in hits ==> p.1 != e) ==> r[e] == enemies[e]
    ensures forall e :: e in enemies && enemies[e].vulnerability.duration > 0.0 ==>
                       r[e].health >= enemies[e].health - 1
    ensures forall e :: e in enemies ==> r[e].killed == enemies[e].killed
  {
    var damaged := DamageAll(enemies, hits);
    assert forall e :: e in enemies && enemies[e].vulnerability.duration > 0.0 ==>
      damaged[e].health >= enemies[e].health - 1 by {
      forall e | e in enemies && enemies[e].vulnerability.duration > 0.0 {
        DamagedAtMostOnce(enemies, hits, e);
      }
    }
    damaged
  }

  /** The hits of the enemy pass: pairs of a player bullet the pass visits and an
      enemy of the vulnerable group it overlaps, confirmed by the mask test.  A
      bullet killed before the pass hits nothing unless it is the first committed
      player bullet. */
  function PlayerBulletHits(w: World, gg: GameGroups, hitbox: ObjId -> Rect, mask: (ObjId, ObjId) -> bool)
    : (hits: seq<(ObjId, ObjId)>)
    requires WorldInv(w) && GroupsExist(w, gg)
    ensures forall p :: p in hits <==>
                       (p.0 in Iterate(w.groups[gg.playerBullets]) && p.1 in Iterate(w.groups[gg.vulnerable])
                        && Intersects(hitbox(p.0), hitbox(p.1)) && mask(p.0, p.1))
    ensures forall p :: p in hits ==> p.1 in w.groups[gg.vulnerable].list
    ensures forall p :: p in hits ==> HitsOf(p.0, Iterate(w.groups[gg.vulnerable]), hitbox, mask) != []
    ensures forall p :: p in hits && p.0 in w.objects && w.objects[p.0].killed ==>
                       (gg.playerBullets in w.objects[p.0].groups ==> w.groups[gg.playerBullets].list != [] && p.0 == w.groups[gg.playerBullets].list[0])
  {
    var targets := Iterate(w.groups[gg.vulnerable]);
    IterateProperties(w.groups[gg.vulnerable]);
    KilledSkipped(w, gg.playerBullets);
    var hits := AllHits(Iterate(w.groups[gg.playerBullets]), targets, hitbox, mask);
    assert forall p :: p in hits ==> p in HitsOf(p.0, targets, hitbox, mask);
    hits
  }

  /** The enemy pass: every live player bullet is checked against every enemy; each
      confirmed hit damages the enemy, and a bullet with at least one hit dies. */
  function EnemyPass(w: World, gg: GameGroups, enemies: map<ObjId, Entity.EntityState>,
                     hitbox: ObjId -> Rect, mask: (ObjId, ObjId) -> bool)
    : (r: (World, map<ObjId, Entity.EntityState>, seq<(ObjId, ObjId)>))
    requires WorldInv(w) && GroupsExist(w, gg)
    requires forall e :: e in w.groups[gg.vulnerable].list ==> e in enemies
    ensures WorldInv(r.0) && SameShape(w, r.0)
    ensures r.1.Keys == enemies.Keys
    ensures forall e :: e in enemies && enemies[e].vulnerability.duration > 0.0 ==>
                       r.1[e].health >= enemies[e].health - 1
    ensures forall e :: e in enemies ==> r.1[e].killed == enemies[e].killed
  {
    var targets := Iterate(w.groups[gg.vulnerable]);
    var hits := PlayerBulletHits(w, gg, hitbox, mask);
    var w1 := KillGroupPass(w, gg.playerBullets, (b: ObjId) => HitsOf(b, targets, hitbox, mask) != []);
    (w1, DamageEnemies(enemies, hits), hits)
  }

  /** Nothing dead comes back; a bullet that dealt damage overlapped the enemy,
      passed the mask test and is dead; a player bullet that was already dead deals
      damage only as the first committed one. */
  lemma EnemyPassKills(w: World, gg: GameGroups, enemies: map<ObjId, Entity.EntityState>,
                       hitbox: ObjId -> Rect, mask: (ObjId, ObjId) -> bool)
    requires WorldInv(w) && GroupsExist(w, gg)
    requires forall e :: e in w.groups[gg.vulnerable].list ==> e in enemies
    ensures var r := EnemyPass(w, gg, enemies, hitbox, mask);
      && (forall x :: x in w.objects && w.objects[x].killed ==> r.0.objects[x].killed)
      && (forall p :: p in r.2 ==>
                      (Intersects(hitbox(p.0), hitbox(p.1)) && mask(p.0, p.1) && p.0 in r.0.objects && r.0.objects[p.0].killed))
      && (forall p :: p in r.2 && p.0 in w.objects && w.objects[p.0].killed ==>
                      (gg.playerBullets in w.objects[p.0].groups ==> w.groups[gg.playerBullets].list != [] && p.0 == w.groups[gg.playerBullets].list[0]))
  {
    IterateProperties(w.groups[gg.playerBullets]);
    InvNoDangling(w);
  }

  /** The player pass: enemy bullets are checked in order until the first one that
      overlaps the player and passes the mask test; that bullet dies and the player
      takes one hit. */
  function PlayerPass(w: World, gg: GameGroups, player: Entity.EntityState, playerId: ObjId, playerHitbox: Rect,
                      hitbox: ObjId -> Rect, mask: (ObjId, ObjId) -> bool)
    : (r: (World, Entity.EntityState))
    requires WorldInv(w) && GroupsExist(w, gg)
    ensures WorldInv(r.0) && SameShape(w, r.0)
    ensures r.1 == player || r.1 == Entity.Demage(player)
  {
    var incoming := Iterate(w.groups[gg.enemyBullets]);
    IterateProperties(w.groups[gg.enemyBullets]);
    InvNoDangling(w);
    match FirstHit(incoming, (b: ObjId) => Intersects(playerHitbox, hitbox(b)) && mask(b, playerId))
    case None => (w, player)
    case Some(k) =>
      var b := incoming[k];
      assert b in w.groups[gg.enemyBullets].list;
      KillKeepsInv(w, b);
      (Kill(w, b), Entity.Demage(player))
  }

  /** Nothing dead comes back, and the player is hit whenever some enemy bullet the
      pass visits overlaps it and passes the mask test. */
  lemma PlayerPassHits(w: World, gg: GameGroups, player: Entity.EntityState, playerId: ObjId, playerHitbox: Rect,
                       hitbox: ObjId -> Rect, mask: (ObjId, ObjId) -> bool)
    requires WorldInv(w) && GroupsExist(w, gg)
    ensures var r := PlayerPass(w, gg, player, playerId, playerHitbox, hitbox, mask);
      && (forall x :: x in w.objects && w.objects[x].killed ==> r.0.objects[x].killed)
      && ((exists b :: b in Iterate(w.groups[gg.enemyBullets]) && Intersects(playerHitbox, hitbox(b)) && mask(b, playerId))
          ==> r.1 == Entity.Demage(player))
  {
    IterateProperties(w.groups[gg.enemyBullets]);
    InvNoDangling(w);
  }

  /** Every bullet test of one frame, in the order the game runs them.  The player
      takes at most one hit, and an enemy with a positive vulnerability window
      loses at most one health point. */
  function BulletCollision(w: World, gg: GameGroups, enemies: map<ObjId, Entity.EntityState>,
                           player: Entity.EntityState, playerId: ObjId, playerHitbox: Rect,
                           hitbox: ObjId -> Rect, query: Rect -> seq<Rect>, mask: (ObjId, ObjId) -> bool)
    : (r: Collided)
    requires WorldInv(w) && GroupsExist(w, gg)
    requires forall e :: e in w.groups[gg.vulnerable].list ==> e in enemies
    ensures WorldInv(r.world) && SameShape(w, r.world)
    ensures r.enemies.Keys == enemies.Keys
    ensures r.player == player || r.player == Entity.Demage(player)
    ensures forall e :: e in enemies && enemies[e].vulnerability.duration > 0.0 ==>
                       r.enemies[e].health >= enemies[e].health - 1
    ensures forall e :: e in enemies ==> r.enemies[e].killed == enemies[e].killed
  {
    var w2 := EnvironmentPasses(w, gg, hitbox, query);
    var (w3, damaged, hits) := EnemyPass(w2, gg, enemies, hitbox, mask);
    var (w4, hurt) := PlayerPass(w3, gg, player, playerId, playerHitbox, hitbox, mask);
    Collided(w4, damaged, hurt, hits)
  }

  /** Nothing dead comes back, and every bullet the tile pass visits that overlaps
      a tile is dead at the end of the frame. */
  lemma BulletCollisionKills(w: World, gg: GameGroups, enemies: map<ObjId, Entity.EntityState>,
                             player: Entity.EntityState, playerId: ObjId, playerHitbox: Rect,
                             hitbox: ObjId -> Rect, query: Rect -> seq<Rect>, mask: (ObjId, ObjId) -> bool)
    requires WorldInv(w) && GroupsExist(w, gg)
    requires forall e :: e in w.groups[gg.vulnerable].list ==> e in enemies
    ensures var r := BulletCollision(w, gg, enemies, player, playerId, playerHitbox, hitbox, query, mask);
      && (forall x :: x in w.objects && w.objects[x].killed ==> r.world.objects[x].killed)
      && (forall b :: b in w.objects && b in Iterate(w.groups[gg.bullets]) ==>
                      (HitsWall(b, hitbox, query) ==> r.world.objects[b].killed))
  {
    var w2 := EnvironmentPasses(w, gg, hitbox, query);
    EnemyPassKills(w2, gg, enemies, hitbox, mask);
    var e := EnemyPass(w2, gg, enemies, hitbox, mask);
    PlayerPassHits(e.0, gg, player, playerId, playerHitbox, hitbox, mask);
  }

  /** A bullet that dealt damage overlapped the enemy, passed the mask test and is
      dead at the end of the frame. */
  lemma BulletCollisionHits(w: World, gg: GameGroups, enemies: map<ObjId, Entity.EntityState>,
                            player: Entity.EntityState, playerId: ObjId, playerHitbox: Rect,
                            hitbox: ObjId -> Rect, query: Rect -> seq<Rect>, mask: (ObjId, ObjId) -> bool)
    requires WorldInv(w) && GroupsExist(w, gg)
    requires forall e :: e in w.groups[gg.vulnerable].list ==> e in enemies
    ensures var r := BulletCollision(w, gg, enemies, player, playerId, playerHitbox, hitbox, query, mask);
      forall p :: p in r.hits ==>
                  (Intersects(hitbox(p.0), hitbox(p.1)) && mask(p.0, p.1) && p.0 in r.world.objects && r.world.objects[p.0].killed)
  {
    var w2 := EnvironmentPasses(w, gg, hitbox, query);
    EnemyPassKills(w2, gg, enemies, hitbox, mask);
    var e := EnemyPass(w2, gg, enemies, hitbox, mask);
    PlayerPassHits(e.0, gg, player, playerId, playerHitbox, hitbox, mask);
    var pl := PlayerPass(e.0, gg, player, playerId, playerHitbox, hitbox, mask);
    assert BulletCollision(w, gg, enemies, player, playerId, playerHitbox, hitbox, query, mask) == Collided(pl.0, e.1, pl.1, e.2);
  }

  /** A player bullet that was dead before the frame or died against a tile deals
      damage only when it is the first committed player bullet, which the group's
      iteration yields without checking. */
  lemma DeadBulletsHitOnlyFirst(w: World, gg: GameGroups, enemies: map<ObjId, Entity.EntityState>,
                                player: Entity.EntityState, playerId: ObjId, playerHitbox: Rect,
                                hitbox: ObjId -> Rect, query: Rect -> seq<Rect>, mask: (ObjId, ObjId) -> bool)
    requires WorldInv(w) && GroupsExist(w, gg)
    requires forall e :: e in w.groups[gg.vulnerable].list ==> e in enemies
    ensures var r := BulletCollision(w, gg, enemies, player, playerId, playerHitbox, hitbox, query, mask);
      forall p :: p in r.hits && p.0 in w.objects && gg.playerBullets in w.objects[p.0].groups ==>
                  ((w.objects[p.0].killed || (p.0 in Iterate(w.groups[gg.bullets]) && HitsWall(p.0, hitbox, query)))
                   ==> w.groups[gg.playerBullets].list != [] && p.0 == w.groups[gg.playerBullets].list[0])
  {
    var w2 := EnvironmentPasses(w, gg, hitbox, query);
    EnemyPassKills(w2, gg, enemies, hitbox, mask);
    var e := EnemyPass(w2, gg, enemies, hitbox, mask);
    var pl := PlayerPass(e.0, gg, player, playerId, playerHitbox, hitbox, mask);
    assert BulletCollision(w, gg, enemies, player, playerId, playerHitbox, hitbox, query, mask) == Collided(pl.0, e.1, pl.1, e.2);
  }

  // ---------------------------------------------------------------------------
  // End of a frame

  /** Below this height the player has fallen out of the level. */
  const FallLimit: real := 3500.0

  /** A player below the level is put back at the start and takes a hit. */
  function FallCheck(p: Player.PlayerState, start: Vec, spriteSize: Vec): (r: Player.PlayerState)
    ensures p.hitbox.top > FallLimit ==>
              (r.hitbox.TopLeft() == start && r.dir == Zero && r.entity == Entity.Demage(p.entity))
    ensures p.hitbox.top <= FallLimit ==> r == p
    ensures r.entity.health == p.entity.health || r.entity.health == p.entity.health - 1
  {
    if p.hitbox.top > FallLimit then
      var back := Player.ResetPlayerPosition(p, start, spriteSize);
      back.(entity := Entity.Demage(back.entity))
    else p
  }

  /** A start inside the level makes the fall check settle: checking again changes
      nothing, so one fall costs one hit. */
  lemma FallCheckSettles(p: Player.PlayerState, start: Vec, spriteSize: Vec)
    requires start.y <= FallLimit
    ensures FallCheck(FallCheck(p, start, spriteSize), start, spriteSize) == FallCheck(p, start, spriteSize)
  {
    if p.hitbox.top > FallLimit {
      assert FallCheck(p, start, spriteSize).hitbox.top == start.y;
    }
  }

  /** The health the overlay and the game-over test read: the signed health as an
      unsigned 32-bit value. */
  function DisplayedHealth(health: int): (h: nat)
    ensures h < 0x1_0000_0000
    ensures 0 <= health < 0x1_0000_0000 ==> h == health
    ensures -0x8000_0000 <= health < 0 ==> h == health + 0x1_0000_0000
  {
    health % 0x1_0000_0000
  }

  /** The tail of the game's update: the fall check, then the game-over screen is
      pushed when the displayed health is zero.  Returns the player and whether the
      game-over screen is pushed. */
  function FinishUpdate(p: Player.PlayerState, start: Vec, spriteSize: Vec): (r: (Player.PlayerState, bool))
    requires -0x8000_0000 <= p.entity.health < 0x8000_0000
    ensures r.0 == FallCheck(p, start, spriteSize)
    ensures r.1 <==> r.0.entity.health == 0
  {
    var q := FallCheck(p, start, spriteSize);
    (q, DisplayedHealth(q.entity.health) == 0)
  }

  /** Health never goes below zero, so the game is over exactly when the last hit
      lands: a player at one health point whose window has elapsed, falling out
      of the level, ends the game; one at two does not. */
  lemma LastFallEndsGame(p: Player.PlayerState, start: Vec, spriteSize: Vec)
    requires p.hitbox.top > FallLimit && p.entity.vulnerability.Finished()
    requires p.entity.health == 1 || p.entity.health == 2
    ensures FinishUpdate(p, start, spriteSize).1 <==> p.entity.health == 1
  {
  }

  /** The game layer's update pushes the game-over screen once: the screen then
      freezes the game, so later updates do not push it again. */
  lemma GameOverPushedOnce(log: seq<Layers.Hook>)
    ensures Layers.Update(Layers.Stack([Layers.GameLayer], log), true).0.layers == [Layers.GameLayer, Layers.GameOverLayer]
    ensures var s := Layers.Update(Layers.Stack([Layers.GameLayer], log), true).0;
      Layers.Update(s, true).0 == s
  {
    var s0 := Layers.Stack([Layers.GameLayer], log);
    var s1 := Layers.PushLayer(s0, Some(Layers.GameOverLayer));
    assert s1.layers == [Layers.GameLayer, Layers.GameOverLayer];
    assert Layers.UpdateFrom(s1, 0, true) == (s1, []);
    assert Layers.UpdateFrom(s0, 1, true).0 == s1;
  }

  // ---------------------------------------------------------------------------
  // The fixed timestep

  /** The main loop's catch-up: while at least one frame of time has accumulated,
      take one frame off and run one update.  Returns how many updates ran and the
      time left over. */
  method FixedSteps(accumulated: real, frame: real) returns (steps: nat, left: real)
    requires frame > 0.0
    ensures left < frame
    ensures steps as real * frame + left == accumulated
    ensures steps == 0 ==> left == accumulated
    ensures steps > 0 ==> left >= 0.0
    ensures accumulated >= 0.0 ==> steps == Floor(accumulated / frame)
  {
    steps := 0;
    left := accumulated;
    while left >= frame
      invariant steps as real * frame + left == accumulated
      invariant steps == 0 ==> left == accumulated
      invariant steps > 0 ==> left >= 0.0
      decreases Floor(left / frame)
    {
      StepDown(left, frame);
      left := left - frame;
      steps := steps + 1;
    }
    if accumulated >= 0.0 {
      FloorSteps(steps, left, frame);
    }
  }

  lemma StepDown(left: real, frame: real)
    requires frame > 0.0 && left >= frame
    ensures Floor((left - frame) / frame) == Floor(left / frame) - 1 && Floor(left / frame) >= 1
  {
    var q := left / frame;
    var x := (left - frame) / frame;
    assert q * frame == left && x * frame == left - frame;
    assert (x - (q - 1.0)) * frame == 0.0;
    ZeroProduct(x - (q - 1.0), frame);
    if q < 1.0 {
      MulPos(1.0 - q, frame);
    }
  }

  lemma FloorSteps(steps: nat, left: real, frame: real)
    requires frame > 0.0 && 0.0 <= left < frame
    ensures Floor((steps as real * frame + left) / frame) == steps
  {
    var q := left / frame;
    assert q * frame == left;
    var x := (steps as real * frame + left) / frame;
    assert x * frame == steps as real * frame + left;
    assert (steps as real + q) * frame == steps as real * frame + left;
    assert (x - (steps as real + q)) * frame == 0.0;
    ZeroProduct(x - (steps as real + q), frame);
    if q < 0.0 {
      MulPos(-q, frame);
    }
    assert q < 1.0 by {
      if q >= 1.0 {
        MulNonNeg(q - 1.0, frame);
      }
    }
  }

  lemma MulPos(a: real, b: real)
    requires a > 0.0 && b > 0.0
    ensures a * b > 0.0
  {
  }

  lemma MulNonNeg(a: real, b: real)
    requires a >= 0.0 && b > 0.0
    ensures a * b >= 0.0
  {
    if a > 0.0 {
      MulPos(a, b);
    }
  }

  lemma ZeroProduct(a: real, b: real)
    requires b > 0.0 && a * b == 0.0
    ensures a == 0.0
  {
    if a > 0.0 {
      MulPos(a, b);
    } else if a < 0.0 {
      MulPos(-a, b);
    }
  }

  // ---------------------------------------------------------------------------
  // Overlay

  /** Where the overlay draws the player's health icons: one per displayed health
      point, in a row from (10, 10), each `iconWidth + 4` to the right of the one
      before. */
  function HealthIcons(health: nat, iconWidth: real): (icons: seq<Vec>)
    ensures |icons| == health
    ensures health > 0 ==> icons[0] == Vec(10.0, 10.0)
    ensures forall i :: 0 <= i < |icons| ==> icons[i].y == 10.0
    ensures forall i :: 0 < i < |icons| ==> icons[i].x == icons[i - 1].x + (iconWidth + 4.0)
  {
    seq(health, i => Vec(10.0 + i as real * (iconWidth + 4.0), 10.0))
  }

  /** Icons of a non-negative width never overlap: each leaves a four-pixel gap
      before the next. */
  lemma {:induction false} IconsApart(health: nat, iconWidth: real, i: nat, j: nat)
    requires iconWidth >= 0.0 && i < j < health
    ensures HealthIcons(health, iconWidth)[i].x + iconWidth + 4.0 <= HealthIcons(health, iconWidth)[j].x
    decreases j - i
  {
    var icons := HealthIcons(health, iconWidth);
    if j > i + 1 {
      IconsApart(health, iconWidth, i, j - 1);
    }
  }
}
