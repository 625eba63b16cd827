/** The state every fighting character shares: a status string whose prefix before
    the first '_' is the facing ("left" or "right"), health, a fire cooldown and a
    vulnerability timer.

    The timer class is not part of this model; it is assumed to be a countdown:
    it is finished when no time remains, an update takes the elapsed time off,
    a restart sets the remaining time to the full duration and `Finish` sets it to
    zero. */
module Entity {
  import opened Geometry

  datatype Timer = Timer(duration: real, remaining: real)
  {
    predicate Finished() { remaining <= 0.0 }

    function Tick(dt: real): Timer { this.(remaining := remaining - dt) }

    function Restart(): Timer { this.(remaining := duration) }

    function Finish(): Timer { this.(remaining := 0.0) }
  }

  /** How long a damaged entity cannot be damaged again, in seconds. */
  const VulnerabilityWindow: real := 0.5

  datatype EntityState = EntityState(
    status: string,
    health: int,
    fireCooldown: Timer,
    vulnerability: Timer,
    killed: bool)

  /** A new entity: both timers start finished, so it may fire and be damaged at once. */
  function NewEntity(health: int, cooldownMs: nat, status: string): (e: EntityState)
    ensures e.status == status && e.health == health && !e.killed
    ensures CanFireBullet(e) && e.vulnerability.Finished()
    ensures e.fireCooldown.duration == cooldownMs as real / 1000.0
    ensures e.vulnerability.duration == VulnerabilityWindow
  {
    EntityState(status, health,
                Timer(cooldownMs as real / 1000.0, cooldownMs as real / 1000.0).Finish(),
                Timer(VulnerabilityWindow, VulnerabilityWindow).Finish(),
                false)
  }

  function UpdateTimerCooldowns(e: EntityState, dt: real): (r: EntityState)
    ensures r.fireCooldown == e.fireCooldown.Tick(dt) && r.vulnerability == e.vulnerability.Tick(dt)
    ensures r.status == e.status && r.health == e.health && r.killed == e.killed
  {
    e.(fireCooldown := e.fireCooldown.Tick(dt), vulnerability := e.vulnerability.Tick(dt))
  }

  /** An entity may fire when its fire cooldown has run out. */
  function CanFireBullet(e: EntityState): bool
  {
    e.fireCooldown.Finished()
  }

  /** Take one hit: only outside the vulnerability window and only while health is
      positive; a hit lowers health by one and opens the window. */
  function Demage(e: EntityState): (r: EntityState)
    ensures r.health == (if e.vulnerability.Finished() && e.health > 0 then e.health - 1 else e.health)
    ensures r.health >= 0 || r.health == e.health
    ensures r.health < e.health ==> r.vulnerability == e.vulnerability.Restart()
    ensures r.health == e.health ==> r == e
    ensures r.status == e.status && r.fireCooldown == e.fireCooldown && r.killed == e.killed
  {
    if e.vulnerability.Finished() && e.health > 0 then
      e.(vulnerability := e.vulnerability.Restart(), health := e.health - 1)
    else e
  }

  /** After a hit, further hits within the window (less than half a second of timer
      updates later) do nothing. */
  lemma InvulnerableAfterHit(e: EntityState, dt: real)
    requires e.vulnerability.duration == VulnerabilityWindow
    requires e.vulnerability.Finished() && e.health > 0 && dt < VulnerabilityWindow
    ensures var hit := UpdateTimerCooldowns(Demage(e), dt);
      Demage(hit) == hit && hit.health == e.health - 1
  {
  }

  /** Repeated hits never take health below zero. */
  lemma {:induction false} HitsStopAtZero(e: EntityState, n: nat)
    requires e.health >= 0
    ensures Hits(e, n).health >= 0
    ensures Hits(e, n).health >= e.health - n
  {
    if n > 0 {
      HitsStopAtZero(e, n - 1);
    }
  }

  /** `n` hits in a row, with the window already elapsed before each. */
  function Hits(e: EntityState, n: nat): EntityState
  {
    if n == 0 then e else Demage(Hits(e, n - 1).(vulnerability := Hits(e, n - 1).vulnerability.Finish()))
  }

  /** The entity dies when its health is not positive. */
  function CheckDeath(e: EntityState): (r: EntityState)
    ensures r.killed <==> e.killed || e.health <= 0
    ensures r.(killed := e.killed) == e
  {
    if e.health <= 0 then e.(killed := true) else e
  }

  /** The part of `s` before its first '_' (all of `s` when there is none). */
  function StatusPrefix(s: string): (p: string)
    ensures p <= s && '_' !in p
    ensures |p| < |s| ==> s[|p|] == '_'
  {
    if s == [] || s[0] == '_' then [] else [s[0]] + StatusPrefix(s[1..])
  }

  /** The prefix of a prefix followed by a suffix is the prefix itself. */
  lemma {:induction false} PrefixOfSuffixed(p: string, suffix: string)
    requires '_' !in p && suffix != [] && suffix[0] == '_'
    ensures StatusPrefix(p + suffix) == p
  {
    if p != [] {
      assert (p + suffix)[1..] == p[1..] + suffix;
      PrefixOfSuffixed(p[1..], suffix);
    }
  }

  /** Facing right fires right; anything else fires left. */
  function FireDirection(status: string): (d: Vec)
    ensures d.y == 0.0
    ensures d.x == 1.0 <==> StatusPrefix(status) == "right"
    ensures d.x == -1.0 <==> StatusPrefix(status) != "right"
  {
    if StatusPrefix(status) == "right" then Vec(1.0, 0.0) else Vec(-1.0, 0.0)
  }

  /** The muzzle height: lower when ducking. */
  function MuzzleDrop(ducking: bool): real
  {
    if ducking then 10.0 else -16.0
  }

  /** A bullet handed to the game: where it starts, where it goes, whose it is. */
  datatype Shot = Shot(position: Vec, direction: Vec, isPlayerBullet: bool)

  /** Fire: the bullet starts at the hitbox centre moved `hortOffset` along the
      facing and raised or lowered to the muzzle, and the cooldown restarts.  The
      cooldown is not consulted; callers check `CanFireBullet` first. */
  function FireBullet(e: EntityState, hitbox: Rect, hortOffset: real, isPlayerBullet: bool, ducking: bool)
    : (r: (EntityState, Shot))
    ensures r.1.direction == FireDirection(e.status) && r.1.isPlayerBullet == isPlayerBullet
    ensures r.1.position.x == hitbox.CenterX() + r.1.direction.x * hortOffset
    ensures r.1.position.y == hitbox.CenterY() + MuzzleDrop(ducking)
    ensures r.0 == e.(fireCooldown := e.fireCooldown.Restart())
    ensures e.fireCooldown.duration > 0.0 ==> !CanFireBullet(r.0)
  {
    var d := FireDirection(e.status);
    var position := hitbox.Center().Plus(d.Scale(hortOffset)).Plus(Vec(0.0, MuzzleDrop(ducking)));
    (e.(fireCooldown := e.fireCooldown.Restart()), Shot(position, d, isPlayerBullet))
  }

  /** Firing closes the gate: after a shot the entity may fire again exactly once
      the timer updates since have taken off the whole cooldown. */
  lemma CooldownGatesFire(e: EntityState, hitbox: Rect, hortOffset: real, isPlayerBullet: bool,
                          ducking: bool, dt: real)
    requires e.fireCooldown.duration > 0.0
    ensures var fired := FireBullet(e, hitbox, hortOffset, isPlayerBullet, ducking).0;
      CanFireBullet(UpdateTimerCooldowns(fired, dt)) <==> dt >= e.fireCooldown.duration
  {
  }

  datatype Tint = White | Red

  /** Red while the vulnerability window is open, white otherwise. */
  function Blink(e: EntityState): (c: Tint)
    ensures c == Red <==> !e.vulnerability.Finished()
  {
    if !e.vulnerability.Finished() then Red else White
  }
}
