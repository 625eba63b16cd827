/** The player: keyboard intent, status naming, and movement with collision
    resolution against the static tiles of the collision layer and the dynamic
    obstacles of the collision group (moving platforms).

    The spatial query enters as a parameter `query` giving the hitboxes of the
    tiles under a rectangle in the order the tile map reports them (the query
    itself is modelled in `TiledMap`).  The obstacles enter as the sequence the
    collision group's pass yields.  The helpers that decide whether an obstacle
    is hit from above or below are not part of this model and enter as the
    parameter `classify`. */
module Player {
  import opened Wrappers
  import opened Geometry
  import opened Entity

  const WalkSpeed: real := 400.0
  /** Added to the vertical speed once per step, whatever the step's length. */
  const Gravity: real := 40.0
  const JumpSpeed: real := 1200.0
  const StartHealth: int := 10
  const FireCooldownMs: nat := 200
  /** How far ahead of the hitbox centre the player's bullets start. */
  const MuzzleOffset: real := 60.0

  /** A dynamic obstacle as the player sees it this step. */
  datatype Obstacle = Obstacle(id: nat, hitbox: Rect, previous: Rect, velocity: Vec)

  /** A floor or ceiling candidate: a static tile (no handle, zero velocity) or an
      obstacle. */
  datatype Contact = Contact(hitbox: Rect, vy: real, id: Option<nat>)

  datatype Side = Below | Above | Neither

  /** The keys held this step. */
  datatype Keys = Keys(right: bool, left: bool, up: bool, down: bool, fire: bool)

  datatype PlayerState = PlayerState(
    entity: EntityState,
    hitbox: Rect,
    previous: Rect,
    dir: Vec,              // x: -1, 0 or 1 (walking); y: vertical speed
    ducking: bool,
    onFloor: bool,
    jumping: bool,
    carrier: Option<nat>)  // the moving obstacle standing under the player

  function NewPlayer(position: Vec, spriteSize: Vec): (p: PlayerState)
    ensures p.entity == NewEntity(StartHealth, FireCooldownMs, "right")
    ensures p.hitbox == p.previous && p.hitbox.TopLeft() == position
    ensures p.dir == Zero && !p.ducking && !p.onFloor && !p.jumping && p.carrier == None
  {
    var h := RectAt(position, spriteSize);
    PlayerState(NewEntity(StartHealth, FireCooldownMs, "right"), h, h, Zero, false, false, false, None)
  }

  // ---------------------------------------------------------------------------
  // Input and status

  /** Read the keys: right wins over left for walking and facing; jumping and
      ducking need the floor; firing needs the cooldown to be over. */
  function Input(p: PlayerState, keys: Keys): (r: (PlayerState, Option<Shot>))
    ensures r.0.dir.x == (if keys.right then 1.0 else if keys.left then -1.0 else 0.0)
    ensures r.0.entity.status == (if keys.right then "right" else if keys.left then "left" else p.entity.status)
    ensures keys.up && p.onFloor ==> r.0.dir.y == -JumpSpeed && r.0.jumping
    ensures !(keys.up && p.onFloor) ==> r.0.dir.y == p.dir.y && r.0.jumping == p.jumping
    ensures r.0.ducking <==> keys.down && p.onFloor
    ensures r.1.Some? <==> keys.fire && CanFireBullet(p.entity)
    ensures r.1.Some? ==> (r.1.value.isPlayerBullet && r.1.value.direction == FireDirection(r.0.entity.status)
      && r.1.value.position.y == p.hitbox.CenterY() + MuzzleDrop(r.0.ducking))
    ensures r.0.hitbox == p.hitbox && r.0.previous == p.previous && r.0.onFloor == p.onFloor
    ensures r.0.carrier == p.carrier && r.0.entity.health == p.entity.health
  {
    var dx := if keys.right then 1.0 else if keys.left then -1.0 else 0.0;
    var status := if keys.right then "right" else if keys.left then "left" else p.entity.status;
    var jump := keys.up && p.onFloor;
    var p1 := p.(dir := Vec(dx, if jump then -JumpSpeed else p.dir.y),
                 jumping := jump || p.jumping,
                 ducking := keys.down && p.onFloor,
                 entity := p.entity.(status := status));
    if keys.fire && CanFireBullet(p1.entity) then
      var fired := FireBullet(p1.entity, p1.hitbox, MuzzleOffset, true, p1.ducking);
      (p1.(entity := fired.0), Some(fired.1))
    else (p1, None)
  }

  /** Rename the status after the state: ducking on the floor wins, then being in
      the air, then standing still on the floor; walking on the floor keeps the
      status as it is.  The facing prefix is always kept. */
  function UpdateStatus(p: PlayerState): (r: PlayerState)
    ensures var pre := StatusPrefix(p.entity.status);
      && (p.onFloor && p.ducking ==> r.entity.status == pre + "_duck")
      && (!p.onFloor ==> r.entity.status == pre + "_jump")
      && (p.onFloor && !p.ducking && p.dir.x == 0.0 ==> r.entity.status == pre + "_idle")
      && (p.onFloor && !p.ducking && p.dir.x != 0.0 ==> r.entity.status == p.entity.status)
      && StatusPrefix(r.entity.status) == pre
    ensures r == p.(entity := p.entity.(status := r.entity.status))
  {
    var s0 := p.entity.status;
    var pre := StatusPrefix(s0);
    PrefixOfSuffixed(pre, "_idle");
    PrefixOfSuffixed(pre, "_jump");
    PrefixOfSuffixed(pre, "_duck");
    var s1 := if p.dir.x == 0.0 && p.onFloor then StatusPrefix(s0) + "_idle" else s0;
    var s2 := if !p.onFloor then StatusPrefix(s1) + "_jump" else s1;
    var s3 := if p.onFloor && p.ducking then StatusPrefix(s2) + "_duck" else s2;
    p.(entity := p.entity.(status := s3))
  }

  /** The status never gains a walking suffix: it is either kept or becomes the
      facing followed by one of idle, jump and duck. */
  lemma NoWalkStatus(p: PlayerState)
    ensures var s := UpdateStatus(p).entity.status;
      var pre := StatusPrefix(p.entity.status);
      s == p.entity.status || s == pre + "_idle" || s == pre + "_jump" || s == pre + "_duck"
  {
  }

  // ---------------------------------------------------------------------------
  // Horizontal pass

  /** Push the hitbox out of one static tile along the walking direction. */
  function StaticSnap(h: Rect, tile: Rect, dirX: real): Rect
  {
    if dirX > 0.0 then h.SetRight(tile.left)
    else if dirX < 0.0 then h.SetLeft(tile.Right())
    else h
  }

  /** The static tiles in order; each moves the hitbox flush against it, so the
      last one decides. */
  function HortStatic(h: Rect, tiles: seq<Rect>, dirX: real): (r: Rect)
    ensures r.top == h.top && r.width == h.width && r.height == h.height
    ensures dirX == 0.0 || tiles == [] ==> r == h
    ensures dirX > 0.0 && tiles != [] ==> r.Right() == tiles[|tiles| - 1].left
    ensures dirX < 0.0 && tiles != [] ==> r.left == tiles[|tiles| - 1].Right()
    decreases |tiles|
  {
    if tiles == [] then h
    else StaticSnap(HortStatic(h, tiles[..|tiles| - 1], dirX), tiles[|tiles| - 1], dirX)
  }

  /** Resolve against one obstacle that overlaps the hitbox: a player that was
      entirely to its right last step is put flush against its right edge, one
      that was entirely to its left flush against its left edge. */
  function ObstacleSnap(h: Rect, prev: Rect, o: Obstacle): (r: Rect)
    ensures r.top == h.top && r.width == h.width && r.height == h.height
    ensures !Intersects(o.hitbox, h) ==> r == h
    ensures prev.width > 0.0 && o.previous.width > 0.0 && Intersects(o.hitbox, h)
      && h.left <= o.hitbox.Right() && prev.left >= o.previous.Right()
      ==> r.left == o.hitbox.Right()
    ensures prev.width > 0.0 && o.previous.width > 0.0 && Intersects(o.hitbox, h)
      && h.Right() >= o.hitbox.left && prev.Right() <= o.previous.left
      ==> r.Right() == o.hitbox.left
    ensures !(prev.left >= o.previous.Right()) && !(prev.Right() <= o.previous.left) ==> r == h
  {
    if Intersects(o.hitbox, h) then
      var h1 := if h.left <= o.hitbox.Right() && prev.left >= o.previous.Right()
                then h.SetLeft(o.hitbox.Right()) else h;
      if h1.Right() >= o.hitbox.left && prev.Right() <= o.previous.left
      then h1.SetRight(o.hitbox.left) else h1
    else h
  }

  /** The obstacles in the order the group's pass yields them. */
  function HortObstacles(h: Rect, prev: Rect, obstacles: seq<Obstacle>): (r: Rect)
    ensures r.top == h.top && r.width == h.width && r.height == h.height
    decreases |obstacles|
  {
    if obstacles == [] then h
    else ObstacleSnap(HortObstacles(h, prev, obstacles[..|obstacles| - 1]), prev, obstacles[|obstacles| - 1])
  }

  /** Both horizontal passes: tiles under the hitbox, then obstacles. */
  function CheckAndResolveHortCollision(h: Rect, prev: Rect, dirX: real, query: Rect -> seq<Rect>,
                                        obstacles: seq<Obstacle>): (r: Rect)
    ensures r.top == h.top && r.width == h.width && r.height == h.height
  {
    HortObstacles(HortStatic(h, query(h), dirX), prev, obstacles)
  }

  // ---------------------------------------------------------------------------
  // Vertical pass

  /** The static tiles become floor candidates when falling, ceiling candidates when
      rising, and neither when the vertical speed is zero. */
  function StaticContacts(tiles: seq<Rect>): seq<Contact>
  {
    seq(|tiles|, k requires 0 <= k < |tiles| => Contact(tiles[k], 0.0, None))
  }

  /** The obstacles overlapping the hitbox that `classify` puts on `side`, in order. */
  function ObstacleContacts(h: Rect, prev: Rect, obstacles: seq<Obstacle>,
                            classify: (Rect, Rect, Obstacle) -> Side, side: Side): (cs: seq<Contact>)
    ensures forall c :: c in cs <==>
      (exists o :: o in obstacles && Intersects(o.hitbox, h) && classify(h, prev, o) == side && c == Contact(o.hitbox, o.velocity.y, Some(o.id)))
    ensures (forall o :: o in obstacles ==> !Intersects(o.hitbox, h)) ==> cs == []
    ensures (forall o :: o in obstacles && Intersects(o.hitbox, h) ==> classify(h, prev, o) != side) ==> cs == []
    decreases |obstacles|
  {
    if obstacles == [] then []
    else
      var rest := ObstacleContacts(h, prev, obstacles[..|obstacles| - 1], classify, side);
      var o := obstacles[|obstacles| - 1];
      assert forall x :: x in obstacles <==> x in obstacles[..|obstacles| - 1] || x == o;
      if Intersects(o.hitbox, h) && classify(h, prev, o) == side
      then rest + [Contact(o.hitbox, o.velocity.y, Some(o.id))]
      else rest
  }

  /** The index the floor scan settles on: the first candidate with the smallest
      vertical speed. */
  function FirstMin(s: seq<Contact>): (r: Option<nat>)
    ensures r.None? <==> s == []
    ensures r.Some? ==> (r.value < |s|
      && (forall j :: 0 <= j < |s| ==> s[r.value].vy <= s[j].vy)
      && (forall j :: 0 <= j < r.value ==> s[j].vy > s[r.value].vy))
    decreases |s|
  {
    if s == [] then None
    else
      var best := FirstMin(s[..|s| - 1]);
      if best.None? || s[|s| - 1].vy < s[best.value].vy then Some(|s| - 1) else best
  }

  /** The index the ceiling scan settles on: the first candidate with the largest
      vertical speed. */
  function FirstMax(s: seq<Contact>): (r: Option<nat>)
    ensures r.None? <==> s == []
    ensures r.Some? ==> (r.value < |s|
      && (forall j :: 0 <= j < |s| ==> s[r.value].vy >= s[j].vy)
      && (forall j :: 0 <= j < r.value ==> s[j].vy < s[r.value].vy))
    decreases |s|
  {
    if s == [] then None
    else
      var best := FirstMax(s[..|s| - 1]);
      if best.None? || s[|s| - 1].vy > s[best.value].vy then Some(|s| - 1) else best
  }

  /** Stand on the floor candidate, if any: bottom to its top, its vertical speed,
      on the floor, no longer jumping, carried by it when it moves vertically.
      Then hit the ceiling candidate, if any: top to its bottom, its vertical speed. */
  function ResolveVertCollision(p: PlayerState, below: seq<Contact>, above: seq<Contact>): (r: PlayerState)
    ensures r.entity == p.entity && r.previous == p.previous && r.ducking == p.ducking
    ensures r.dir.x == p.dir.x && r.hitbox.left == p.hitbox.left
    ensures r.hitbox.width == p.hitbox.width && r.hitbox.height == p.hitbox.height
    ensures below == [] ==> r.onFloor == p.onFloor && r.jumping == p.jumping && r.carrier == None
    ensures below != [] ==> var f := below[FirstMin(below).value];
      && r.onFloor && !r.jumping
      && r.carrier == (if f.vy != 0.0 then f.id else None)
      && (above == [] ==> r.hitbox.Bottom() == f.hitbox.top && r.dir.y == f.vy)
    ensures above != [] ==> var c := above[FirstMax(above).value];
      r.hitbox.top == c.hitbox.Bottom() && r.dir.y == c.vy
    ensures below == [] && above == [] ==> r.hitbox == p.hitbox && r.dir.y == p.dir.y
  {
    var p1 := match FirstMin(below)
      case None => p.(carrier := None)
      case Some(i) =>
        var f := below[i];
        p.(hitbox := p.hitbox.SetBottom(f.hitbox.top), dir := Vec(p.dir.x, f.vy),
           onFloor := true, jumping := false,
           carrier := if f.vy != 0.0 then f.id else None);
    match FirstMax(above)
    case None => p1
    case Some(i) =>
      var c := above[i];
      p1.(hitbox := p1.hitbox.SetTop(c.hitbox.Bottom()), dir := Vec(p1.dir.x, c.vy))
  }

  /** Gather the floor and ceiling candidates under and over the hitbox and resolve
      them; the player is off the floor unless a floor candidate is found. */
  function CheckAndResolveVertCollision(p: PlayerState, query: Rect -> seq<Rect>, obstacles: seq<Obstacle>,
                                        classify: (Rect, Rect, Obstacle) -> Side): (r: PlayerState)
    ensures r.hitbox.left == p.hitbox.left && r.hitbox.width == p.hitbox.width
    ensures r.hitbox.height == p.hitbox.height && r.dir.x == p.dir.x && r.entity == p.entity
    ensures query(p.hitbox) != [] && p.dir.y > 0.0 ==> r.onFloor
    ensures !r.onFloor ==> r.carrier == None
  {
    var tiles := StaticContacts(query(p.hitbox));
    var below := (if p.dir.y > 0.0 then tiles else [])
                 + ObstacleContacts(p.hitbox, p.previous, obstacles, classify, Below);
    var above := (if p.dir.y < 0.0 then tiles else [])
                 + ObstacleContacts(p.hitbox, p.previous, obstacles, classify, Above);
    ResolveVertCollision(p.(onFloor := false), below, above)
  }

  /** With no candidate anywhere the player is in the air, keeps its vertical speed
      and is carried by nothing. */
  lemma NoContactFalls(p: PlayerState, query: Rect -> seq<Rect>, obstacles: seq<Obstacle>,
                       classify: (Rect, Rect, Obstacle) -> Side)
    requires query(p.hitbox) == []
    requires forall o :: o in obstacles ==> !Intersects(o.hitbox, p.hitbox)
    ensures var r := CheckAndResolveVertCollision(p, query, obstacles, classify);
      !r.onFloor && r.dir.y == p.dir.y && r.hitbox == p.hitbox && r.carrier == None
  {
  }

  /** No tiles under the hitbox at all. */
  const NoTiles: Rect -> seq<Rect> := _ => []

  /** With no vertical speed the tiles under the hitbox are neither floor nor
      ceiling: the result is the one without any tiles. */
  lemma LevelIgnoresTiles(p: PlayerState, query: Rect -> seq<Rect>, obstacles: seq<Obstacle>,
                          classify: (Rect, Rect, Obstacle) -> Side)
    requires p.dir.y == 0.0
    ensures CheckAndResolveVertCollision(p, query, obstacles, classify)
         == CheckAndResolveVertCollision(p, NoTiles, obstacles, classify)
  {
    assert StaticContacts(NoTiles(p.hitbox)) == [];
  }

  /** A candidate list whose first element is the slowest is resolved at index 0:
      a tile listed first wins a tie with a platform. */
  lemma FirstMinAtFront(s: seq<Contact>)
    requires s != [] && forall j :: 0 <= j < |s| ==> s[0].vy <= s[j].vy
    ensures FirstMin(s) == Some(0)
  {
  }

  /** A candidate list whose first element is the fastest is resolved at index 0. */
  lemma FirstMaxAtFront(s: seq<Contact>)
    requires s != [] && forall j :: 0 <= j < |s| ==> s[0].vy >= s[j].vy
    ensures FirstMax(s) == Some(0)
  {
  }

  /** A falling player with tiles under the hitbox, and no overlapping obstacle that
      is a ceiling or a floor moving up, lands on the first tile: bottom flush with
      its top, vertical speed zero, on the floor and carried by nothing. */
  lemma {:induction false} FallingLandsOnFirstTile(p: PlayerState, query: Rect -> seq<Rect>,
                                                    obstacles: seq<Obstacle>,
                                                    classify: (Rect, Rect, Obstacle) -> Side)
    requires p.dir.y > 0.0 && query(p.hitbox) != []
    requires forall o :: o in obstacles && Intersects(o.hitbox, p.hitbox) ==>
      classify(p.hitbox, p.previous, o) != Above
      && (classify(p.hitbox, p.previous, o) == Below ==> o.velocity.y >= 0.0)
    ensures var r := CheckAndResolveVertCollision(p, query, obstacles, classify);
      && r.hitbox.Bottom() == query(p.hitbox)[0].top && r.dir.y == 0.0
      && r.onFloor && !r.jumping && r.carrier == None
  {
    var tiles := StaticContacts(query(p.hitbox));
    var floors := ObstacleContacts(p.hitbox, p.previous, obstacles, classify, Below);
    var below := tiles + floors;
    forall j | 0 <= j < |below| ensures below[0].vy <= below[j].vy {
      if j >= |tiles| {
        assert floors[j - |tiles|] in floors;
      }
    }
    FirstMinAtFront(below);
  }

  /** A rising player with tiles over the hitbox, and no overlapping obstacle that is
      a floor or a ceiling moving down, hits the first tile: top flush with its
      bottom, vertical speed zero, off the floor. */
  lemma {:induction false} RisingHitsFirstTile(p: PlayerState, query: Rect -> seq<Rect>,
                                               obstacles: seq<Obstacle>,
                                               classify: (Rect, Rect, Obstacle) -> Side)
    requires p.dir.y < 0.0 && query(p.hitbox) != []
    requires forall o :: o in obstacles && Intersects(o.hitbox, p.hitbox) ==>
      classify(p.hitbox, p.previous, o) != Below
      && (classify(p.hitbox, p.previous, o) == Above ==> o.velocity.y <= 0.0)
    ensures var r := CheckAndResolveVertCollision(p, query, obstacles, classify);
      && r.hitbox.top == query(p.hitbox)[0].Bottom() && r.dir.y == 0.0
      && !r.onFloor && r.carrier == None
  {
    var tiles := StaticContacts(query(p.hitbox));
    var ceilings := ObstacleContacts(p.hitbox, p.previous, obstacles, classify, Above);
    var above := tiles + ceilings;
    forall j | 0 <= j < |above| ensures above[0].vy >= above[j].vy {
      if j >= |tiles| {
        assert ceilings[j - |tiles|] in ceilings;
      }
    }
    FirstMaxAtFront(above);
  }

  // ---------------------------------------------------------------------------
  // Movement

  /** The current vertical speed of the obstacle with handle `id`, if the group
      still yields it. */
  function VelocityOf(obstacles: seq<Obstacle>, id: nat): (r: Option<real>)
    ensures r.Some? <==> exists o :: o in obstacles && o.id == id
    ensures r.Some? ==> exists o :: o in obstacles && o.id == id && o.velocity.y == r.value
    decreases |obstacles|
  {
    if obstacles == [] then None
    else if obstacles[0].id == id then Some(obstacles[0].velocity.y)
    else VelocityOf(obstacles[1..], id)
  }

  /** The vertical speed the step falls with: a player standing on a platform that
      moves down takes the platform's speed unless it is jumping; then gravity is
      added. */
  function FallSpeed(p: PlayerState, obstacles: seq<Obstacle>): (vy: real)
    ensures !p.jumping && p.carrier.Some? && VelocityOf(obstacles, p.carrier.value).Some?
      && VelocityOf(obstacles, p.carrier.value).value > 0.0
      ==> vy == VelocityOf(obstacles, p.carrier.value).value + Gravity
    ensures p.jumping || p.carrier.None? ==> vy == p.dir.y + Gravity
    ensures !p.jumping && p.carrier.Some?
      && (VelocityOf(obstacles, p.carrier.value).None? || VelocityOf(obstacles, p.carrier.value).value <= 0.0)
      ==> vy == p.dir.y + Gravity
  {
    var carried :=
      if !p.jumping && p.carrier.Some? then
        match VelocityOf(obstacles, p.carrier.value)
        case Some(v) => if v > 0.0 then v else p.dir.y
        case None => p.dir.y
      else p.dir.y;
    carried + Gravity
  }

  /** One step of movement: stop walking while ducking on the floor; walk and
      resolve horizontally; fall (with the platform correction and gravity) and
      resolve vertically. */
  function Move(p: PlayerState, dt: real, query: Rect -> seq<Rect>, obstacles: seq<Obstacle>,
                classify: (Rect, Rect, Obstacle) -> Side): (r: PlayerState)
    ensures r.dir.x == (if p.ducking && p.onFloor then 0.0 else p.dir.x)
    ensures r.hitbox.width == p.hitbox.width && r.hitbox.height == p.hitbox.height
    ensures r.entity == p.entity && r.previous == p.previous && r.ducking == p.ducking
  {
    var dirX := if p.ducking && p.onFloor then 0.0 else p.dir.x;
    var h1 := p.hitbox.MoveLeft(dirX * WalkSpeed * dt);
    var h2 := CheckAndResolveHortCollision(h1, p.previous, dirX, query, obstacles);
    var vy := FallSpeed(p, obstacles);
    var h3 := h2.MoveTop(vy * dt);
    CheckAndResolveVertCollision(p.(hitbox := h3, dir := Vec(dirX, vy)), query, obstacles, classify)
  }

  /** In free fall (nothing under or over the player, not carried) a step adds
      gravity to the vertical speed and moves by the new speed. */
  lemma FreeFall(p: PlayerState, dt: real, obstacles: seq<Obstacle>, classify: (Rect, Rect, Obstacle) -> Side)
    requires p.carrier.None? && obstacles == []
    ensures var r := Move(p, dt, _ => [], obstacles, classify);
      && r.dir.y == p.dir.y + Gravity
      && r.hitbox.top == p.hitbox.top + (p.dir.y + Gravity) * dt
      && !r.onFloor
  {
    var q: Rect -> seq<Rect> := _ => [];
    var dirX := if p.ducking && p.onFloor then 0.0 else p.dir.x;
    var h1 := p.hitbox.MoveLeft(dirX * WalkSpeed * dt);
    assert CheckAndResolveHortCollision(h1, p.previous, dirX, q, obstacles) == h1;
    var vy := FallSpeed(p, obstacles);
    var p3 := p.(hitbox := h1.MoveTop(vy * dt), dir := Vec(dirX, vy));
    NoContactFalls(p3, q, obstacles, classify);
  }

  /** One frame of the player: remember the hitbox, read the keys, rename the
      status, move, and run the timers.  The player's own death check does
      nothing: the game decides what happens at zero health. */
  function Update(p: PlayerState, dt: real, keys: Keys, query: Rect -> seq<Rect>, obstacles: seq<Obstacle>,
                  classify: (Rect, Rect, Obstacle) -> Side): (r: (PlayerState, Option<Shot>))
    ensures r.0.previous == p.hitbox
    ensures r.0.entity.health == p.entity.health && r.0.entity.killed == p.entity.killed
    ensures r.0.hitbox.width == p.hitbox.width && r.0.hitbox.height == p.hitbox.height
    ensures r.1.Some? <==> keys.fire && CanFireBullet(p.entity)
  {
    var input := Input(p.(previous := p.hitbox), keys);
    var moved := Move(UpdateStatus(input.0), dt, query, obstacles, classify);
    (moved.(entity := UpdateTimerCooldowns(moved.entity, dt)), input.1)
  }

  /** Put the player at `position`, at rest, with a hitbox of the sprite's size and
      no motion history; everything else is kept. */
  function ResetPlayerPosition(p: PlayerState, position: Vec, spriteSize: Vec): (r: PlayerState)
    ensures r.hitbox.TopLeft() == position && r.hitbox.width == spriteSize.x && r.hitbox.height == spriteSize.y
    ensures r.previous == r.hitbox && r.dir == Zero
    ensures r.entity == p.entity && r.onFloor == p.onFloor && r.jumping == p.jumping
    ensures r.ducking == p.ducking && r.carrier == p.carrier
  {
    var h := RectAt(position, spriteSize);
    p.(hitbox := h, previous := h, dir := Zero)
  }
}
