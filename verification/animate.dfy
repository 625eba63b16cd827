/** Frame animation: named sequences of textures, a current sequence, and a
    fractional frame index advanced by frames-per-second times elapsed seconds.

    Textures are opaque handles.  The current sequence is held by its id; the
    source holds a pointer into the sequence map, which always points at the
    entry stored under that id. */
module Animate {
  import opened Wrappers
  import opened Geometry

  type Texture = nat

  datatype Animation = Animation(
    sequences: map<string, seq<Texture>>,
    current: Option<string>,
    frameIndex: real,
    fps: real)

  /** A new animation: no sequences, none current, frame index zero. */
  function NewAnimation(fps: nat): (a: Animation)
    ensures a.sequences == map[] && a.current == None && a.frameIndex == 0.0 && a.fps == fps as real
  {
    Animation(map[], None, 0.0, fps as real)
  }

  /** A current sequence is selected and it is stored. */
  predicate HasCurrent(a: Animation)
  {
    a.current.Some? && a.current.value in a.sequences
  }

  function CurrentFrames(a: Animation): seq<Texture>
    requires HasCurrent(a)
  {
    a.sequences[a.current.value]
  }

  /** The frame index lies in `[0, size)` of the current sequence. */
  predicate InBounds(a: Animation)
  {
    HasCurrent(a) && 0.0 <= a.frameIndex < |CurrentFrames(a)| as real
  }

  /** Advance by `fps * dt` frames.  Reaching the end of the sequence wraps the
      index to 0 and reports that the sequence finished. */
  function Update(a: Animation, dt: real): (r: (Animation, bool))
    requires HasCurrent(a)
    ensures r.0.sequences == a.sequences && r.0.current == a.current && r.0.fps == a.fps
    ensures r.1 <==> a.frameIndex + a.fps * dt >= |CurrentFrames(a)| as real
    ensures r.1 ==> r.0.frameIndex == 0.0
    ensures !r.1 ==> r.0.frameIndex == a.frameIndex + a.fps * dt
  {
    var index := a.frameIndex + a.fps * dt;
    if index >= |CurrentFrames(a)| as real then (a.(frameIndex := 0.0), true)
    else (a.(frameIndex := index), false)
  }

  /** With a non-negative rate and time step, an index within a non-empty sequence
      stays within it, so the texture lookup after an update is in bounds. */
  lemma UpdateKeepsBounds(a: Animation, dt: real)
    requires InBounds(a) && a.fps >= 0.0 && dt >= 0.0
    ensures InBounds(Update(a, dt).0)
  {
    assert a.fps * dt >= 0.0;
  }

  /** Register a sequence under its id.  An id already present keeps its sequence. */
  function AddSequence(a: Animation, id: string, frames: seq<Texture>): (r: Animation)
    ensures id in r.sequences
    ensures id in a.sequences ==> r == a
    ensures id !in a.sequences ==> r.sequences[id] == frames
    ensures forall k :: k in a.sequences ==> k in r.sequences && r.sequences[k] == a.sequences[k]
    ensures r.sequences.Keys == a.sequences.Keys + {id}
    ensures r.current == a.current && r.frameIndex == a.frameIndex && r.fps == a.fps
  {
    if id in a.sequences then a else a.(sequences := a.sequences[id := frames])
  }

  /** Why `SetSequence` could not complete: the id names no sequence. */
  datatype AnimError = OutOfRange

  /** Select a sequence by id.  Selecting the current one changes nothing; any other
      id switches to it and restarts from frame 0, and fails when no sequence has
      that id. */
  function SetSequence(a: Animation, id: string): (r: Result<Animation, AnimError>)
    ensures a.current == Some(id) ==> r == Ok(a)
    ensures a.current != Some(id) ==> (r.Ok? <==> id in a.sequences)
    ensures a.current != Some(id) && r.Ok? ==>
      r.value == a.(current := Some(id), frameIndex := 0.0)
  {
    if a.current.None? || a.current.value != id then
      if id in a.sequences then Ok(a.(current := Some(id), frameIndex := 0.0)) else Err(OutOfRange)
    else Ok(a)
  }

  /** Selecting a stored sequence leaves the animation in bounds whenever the
      sequence is non-empty. */
  lemma SetSequenceInBounds(a: Animation, id: string)
    requires id in a.sequences && |a.sequences[id]| > 0
    requires a.current == Some(id) ==> InBounds(a)
    ensures SetSequence(a, id).Ok? && InBounds(SetSequence(a, id).value)
    ensures SetSequence(a, id).value.current == Some(id)
  {
  }

  function Reset(a: Animation): (r: Animation)
    ensures r.frameIndex == 0.0
    ensures r.sequences == a.sequences && r.current == a.current && r.fps == a.fps
  {
    a.(frameIndex := 0.0)
  }

  /** The whole frame the index is on: the index truncated to an integer. */
  function FrameIndex(a: Animation): (n: int)
    ensures a.frameIndex >= 0.0 ==> 0 <= n && n as real <= a.frameIndex < n as real + 1.0
  {
    Truncate(a.frameIndex)
  }

  /** The texture of the whole frame the index is on. */
  function GetTexture(a: Animation): (t: Texture)
    requires InBounds(a)
    ensures 0 <= FrameIndex(a) < |CurrentFrames(a)| && t in CurrentFrames(a)
  {
    CurrentFrames(a)[FrameIndex(a)]
  }
}
