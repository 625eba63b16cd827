/** A moving platform: it travels vertically at a fixed speed and turns around when
    its bounds overlap one of its waypoints.

    Two rectangles describe it.  The hitbox moves continuously; the bounds are the
    sprite's rectangle at the drawn position, which catches up with the hitbox
    only when the platform is snapped to a waypoint and at the end of the update.
    The waypoint test reads the bounds, so within an update it sees the position
    the platform had before it moved.  Positions are exact: the rounding of the
    drawn position to whole pixels is not modelled. */
module Platform {
  import opened Geometry

  const Speed: real := 200.0

  datatype PlatformState = PlatformState(
    hitbox: Rect,
    previous: Rect,
    dirY: real,       // -1 moving up, 1 moving down
    position: Vec,    // the drawn position: the top-left of the bounds
    size: Vec)        // the sprite's size
  {
    function Bounds(): Rect { RectAt(position, size) }

    predicate IsMovingDown() { dirY > 0.0 }

    /** Only ever vertical; a unit direction gives exactly the platform speed. */
    function Velocity(): (v: Vec)
      ensures v.x == 0.0 && (dirY == 1.0 ==> v.y == Speed) && (dirY == -1.0 ==> v.y == -Speed)
    {
      Vec(0.0, dirY * Speed)
    }
  }

  /** The direction is a unit vertical step and the drawn position matches the
      hitbox.  Every platform is built with these and keeps them. */
  predicate Valid(p: PlatformState)
  {
    (p.dirY == 1.0 || p.dirY == -1.0) && p.position == p.hitbox.TopLeft()
  }

  /** A new platform starts moving up, with the hitbox equal to its bounds. */
  function NewPlatform(position: Vec, size: Vec): (p: PlatformState)
    ensures Valid(p) && p.hitbox == p.Bounds() && !p.IsMovingDown()
    ensures p.Velocity() == Vec(0.0, -Speed)
  {
    PlatformState(RectAt(position, size), RectAt(position, size), -1.0, position, size)
  }

  function ReverseDirection(p: PlatformState): (r: PlatformState)
    ensures r.IsMovingDown() <==> p.dirY < 0.0
    ensures r.Velocity() == Vec(0.0, -p.Velocity().y)
    ensures r.dirY == -p.dirY && r.(dirY := p.dirY) == p
  {
    p.(dirY := -p.dirY)
  }

  /** Snap the top of the hitbox to `value`, and the drawn position with it. */
  function SetTop(p: PlatformState, value: real): (r: PlatformState)
    ensures r.hitbox.top == value && r.position == r.hitbox.TopLeft()
    ensures r.hitbox.left == p.hitbox.left && r.hitbox.width == p.hitbox.width && r.hitbox.height == p.hitbox.height
    ensures r.dirY == p.dirY && r.previous == p.previous && r.size == p.size
  {
    var h := p.hitbox.SetTop(value);
    p.(hitbox := h, position := h.TopLeft())
  }

  /** Snap the bottom of the hitbox to `value`, and the drawn position with it. */
  function SetBottom(p: PlatformState, value: real): (r: PlatformState)
    ensures r.hitbox.Bottom() == value && r.position == r.hitbox.TopLeft()
    ensures r.hitbox.left == p.hitbox.left && r.hitbox.width == p.hitbox.width && r.hitbox.height == p.hitbox.height
    ensures r.dirY == p.dirY && r.previous == p.previous && r.size == p.size
  {
    var h := p.hitbox.SetBottom(value);
    p.(hitbox := h, position := h.TopLeft())
  }

  /** Test one waypoint against the bounds: on overlap, a platform moving down
      rests its bottom on the waypoint's top and one moving up its top against
      the waypoint's bottom, and either turns around. */
  function Bounce(p: PlatformState, waypoint: Rect): (r: PlatformState)
    ensures !Intersects(p.Bounds(), waypoint) ==> r == p
    ensures Intersects(p.Bounds(), waypoint) ==>
      && r.dirY == -p.dirY
      && (p.IsMovingDown() ==> r.hitbox.Bottom() == waypoint.top)
      && (!p.IsMovingDown() ==> r.hitbox.top == waypoint.Bottom())
      && r.position == r.hitbox.TopLeft()
    ensures r.hitbox.left == p.hitbox.left && r.hitbox.width == p.hitbox.width && r.hitbox.height == p.hitbox.height
    ensures r.previous == p.previous && r.size == p.size
  {
    if Intersects(p.Bounds(), waypoint) then
      if p.IsMovingDown() then ReverseDirection(SetBottom(p, waypoint.top))
      else ReverseDirection(SetTop(p, waypoint.Bottom()))
    else p
  }

  /** The waypoints in their stored order. */
  function BounceAll(p: PlatformState, waypoints: seq<Rect>): (r: PlatformState)
    ensures r.dirY == p.dirY || r.dirY == -p.dirY
    ensures r.hitbox.left == p.hitbox.left && r.hitbox.width == p.hitbox.width && r.hitbox.height == p.hitbox.height
    ensures r.previous == p.previous && r.size == p.size
    decreases |waypoints|
  {
    if waypoints == [] then p
    else Bounce(BounceAll(p, waypoints[..|waypoints| - 1]), waypoints[|waypoints| - 1])
  }

  /** One frame: remember the hitbox, move it by speed times elapsed time along the
      direction, bounce off the waypoints, and bring the drawn position up to the
      hitbox. */
  function Update(p: PlatformState, dt: real, waypoints: seq<Rect>): (r: PlatformState)
    ensures r.previous == p.hitbox && r.position == r.hitbox.TopLeft()
    ensures r.hitbox.left == p.hitbox.left && r.hitbox.width == p.hitbox.width && r.hitbox.height == p.hitbox.height
    ensures r.size == p.size
    ensures r.dirY == p.dirY || r.dirY == -p.dirY
    ensures Valid(p) ==> Valid(r)
  {
    var bounced := BounceAll(Move(p, dt), waypoints);
    bounced.(position := bounced.hitbox.TopLeft())
  }

  /** Remember the hitbox and move it by speed times elapsed time along the
      direction; the drawn position stays behind. */
  function Move(p: PlatformState, dt: real): (r: PlatformState)
    ensures r.Bounds() == p.Bounds() && r.previous == p.hitbox
    ensures r.hitbox == p.hitbox.MoveTop(p.dirY * Speed * dt)
    ensures r == p.(previous := r.previous, hitbox := r.hitbox)
  {
    p.(previous := p.hitbox, hitbox := p.hitbox.MoveTop(p.dirY * Speed * dt))
  }

  /** Away from every waypoint the platform simply moves on by `Speed * dt`. */
  lemma {:induction false} FreeTravel(p: PlatformState, dt: real, waypoints: seq<Rect>)
    requires forall w :: w in waypoints ==> !Intersects(p.Bounds(), w)
    ensures var r := Update(p, dt, waypoints);
      r.dirY == p.dirY && r.hitbox == p.hitbox.MoveTop(p.dirY * Speed * dt)
  {
    NoBounce(Move(p, dt), waypoints);
  }

  lemma {:induction false} NoBounce(p: PlatformState, waypoints: seq<Rect>)
    requires forall w :: w in waypoints ==> !Intersects(p.Bounds(), w)
    ensures BounceAll(p, waypoints) == p
    decreases |waypoints|
  {
    if waypoints != [] {
      var init := waypoints[..|waypoints| - 1];
      assert forall w :: w in init ==> w in waypoints;
      NoBounce(p, init);
      assert waypoints[|waypoints| - 1] in waypoints;
    }
  }

  /** The waypoint test sees the drawn position from before the move: a platform
      whose old bounds miss a waypoint goes on this frame even when its moved
      hitbox overlaps it, and turns around one update later. */
  lemma StaleBoundsDelayTurn()
    ensures var p := NewPlatform(Vec(0.0, 100.0), Vec(64.0, 16.0));
      var w := Rect(0.0, 80.0, 64.0, 18.0);
      var r := Update(p, 0.1, [w]);
      && !Intersects(p.Bounds(), w)
      && Intersects(r.hitbox, w)
      && r.dirY == p.dirY
      && Update(r, 0.1, [w]).dirY == -p.dirY
  {
    var p := NewPlatform(Vec(0.0, 100.0), Vec(64.0, 16.0));
    var w := Rect(0.0, 80.0, 64.0, 18.0);
    FreeTravel(p, 0.1, [w]);
  }
}
