/** The layer stack: the game at the bottom, with the pause screen or the game-over
    screen pushed over it.  Events and updates travel from the top layer down and
    stop after the first layer that answers false; draws travel from the bottom
    up and stop likewise; resizes reach every layer.

    Layers are named by their kind.  The hooks a layer runs on entering and
    leaving are recorded in a log, in call order.  A hook may change the stack
    while a pass is running over it (the game pushes the pause screen while it
    handles the pause key; the pause screen pops itself); the passes are modelled
    with the stack read afresh at each step, as the indexed loops read it. */
module Layers {
  import opened Wrappers

  datatype LayerKind = GameLayer | PauseLayer | GameOverLayer

  datatype Hook = OnEnter(layer: LayerKind) | OnExit(layer: LayerKind)

  datatype Stack = Stack(layers: seq<LayerKind>, log: seq<Hook>)

  const EmptyStack: Stack := Stack([], [])

  /** The keys the layers react to; every other event is `OtherKey`. */
  datatype Key = PauseKey | SpaceKey | OtherKey

  // ---------------------------------------------------------------------------
  // Stack operations

  /** Push a layer on top and run its entering hook.  A missing layer is ignored. */
  function PushLayer(s: Stack, layer: Option<LayerKind>): (r: Stack)
    ensures layer.None? ==> r == s
    ensures layer.Some? ==> r.layers == s.layers + [layer.value] && r.log == s.log + [OnEnter(layer.value)]
  {
    match layer
    case None => s
    case Some(k) => Stack(s.layers + [k], s.log + [OnEnter(k)])
  }

  /** Run the top layer's leaving hook and remove it.  An empty stack is left alone. */
  function PopLayer(s: Stack): (r: Stack)
    ensures s.layers == [] ==> r == s
    ensures s.layers != [] ==>
      && r.layers == s.layers[..|s.layers| - 1]
      && r.log == s.log + [OnExit(s.layers[|s.layers| - 1])]
  {
    if s.layers == [] then s
    else Stack(s.layers[..|s.layers| - 1], s.log + [OnExit(s.layers[|s.layers| - 1])])
  }

  /** Pushing a layer and popping it again leaves the same layers, with one entering
      and one leaving hook of that layer logged. */
  lemma PushPop(s: Stack, k: LayerKind)
    ensures PopLayer(PushLayer(s, Some(k))).layers == s.layers
    ensures PopLayer(PushLayer(s, Some(k))).log == s.log + [OnEnter(k), OnExit(k)]
  {
    assert (s.layers + [k])[..|s.layers|] == s.layers;
  }

  /** The leaving hooks of `layers`, bottom first. */
  function ExitAll(layers: seq<LayerKind>): (hooks: seq<Hook>)
    ensures |hooks| == |layers|
    ensures forall i :: 0 <= i < |layers| ==> hooks[i] == OnExit(layers[i])
  {
    if layers == [] then [] else [OnExit(layers[0])] + ExitAll(layers[1..])
  }

  /** Run every layer's leaving hook, bottom first, and empty the stack. */
  function Clear(s: Stack): (r: Stack)
    ensures r.layers == [] && |r.log| == |s.log| + |s.layers|
    ensures r.log[..|s.log|] == s.log
    ensures forall i :: 0 <= i < |s.layers| ==> r.log[|s.log| + i] == OnExit(s.layers[i])
  {
    Stack([], s.log + ExitAll(s.layers))
  }

  // ---------------------------------------------------------------------------
  // Hooks of each layer

  /** Whether a layer lets events and updates through to the layers under it: the
      game does, the pause and game-over screens do not. */
  predicate PassesDown(k: LayerKind)
  {
    k == GameLayer
  }

  /** What happens when a layer handles a key: the game pushes the pause screen on
      the pause key; the pause screen pops the top layer on the pause key; the
      game-over screen resets the scene and pops the top layer on space.  The
      answer is `PassesDown`; `reset` tells whether the scene was reset. */
  function LayerHandleEvent(s: Stack, k: LayerKind, key: Key): (r: (Stack, bool))
    ensures r.1 <==> k == GameOverLayer && key == SpaceKey
    ensures PassesDown(k) ==> |r.0.layers| >= |s.layers| && r.0.layers[..|s.layers|] == s.layers
  {
    match k
    case GameLayer =>
      assert (s.layers + [PauseLayer])[..|s.layers|] == s.layers;
      (if key == PauseKey then PushLayer(s, Some(PauseLayer)) else s, false)
    case PauseLayer =>
      (if key == PauseKey then PopLayer(s) else s, false)
    case GameOverLayer =>
      if key == SpaceKey then (PopLayer(s), true) else (s, false)
  }

  /** The top-down event pass over the `i` lowest layers, the stack read afresh at
      each step.  Returns the new stack, the layers visited in visiting order, and
      how many times the scene was reset. */
  function HandleEventFrom(s: Stack, i: nat, key: Key): (r: (Stack, seq<LayerKind>, nat))
    requires i <= |s.layers|
    ensures |r.1| <= i
    ensures forall j :: 0 <= j < |r.1| ==> r.1[j] == s.layers[i - 1 - j]
    ensures forall j :: 0 <= j < |r.1| - 1 ==> PassesDown(r.1[j])
    ensures |r.1| < i ==> |r.1| > 0 && !PassesDown(r.1[|r.1| - 1])
    ensures r.2 <= 1
    decreases i
  {
    if i == 0 then (s, [], 0)
    else
      var k := s.layers[i - 1];
      var handled := LayerHandleEvent(s, k, key);
      if PassesDown(k) then
        var rest := HandleEventFrom(handled.0, i - 1, key);
        assert forall j :: 0 <= j < i - 1 ==> handled.0.layers[j] == s.layers[j];
        (rest.0, [k] + rest.1, rest.2)
      else (handled.0, [k], if handled.1 then 1 else 0)
  }

  /** The event pass over the whole stack: the top layer sees the event first, the
      layers under it follow top-down, and the pass stops after the first layer
      that does not pass events down. */
  function HandleEvent(s: Stack, key: Key): (r: (Stack, seq<LayerKind>, nat))
    ensures s.layers != [] ==> |r.1| > 0 && r.1[0] == s.layers[|s.layers| - 1]
    ensures |r.1| <= |s.layers| && forall j :: 0 <= j < |r.1| ==> r.1[j] == s.layers[|s.layers| - 1 - j]
    ensures forall j :: 0 <= j < |r.1| - 1 ==> PassesDown(r.1[j])
    ensures |r.1| < |s.layers| ==> !PassesDown(r.1[|r.1| - 1])
    ensures r.2 <= 1
  {
    HandleEventFrom(s, |s.layers|, key)
  }

  /** While the pause or game-over screen is on top, events reach only that screen. */
  lemma ScreenBlocksEvents(s: Stack, key: Key)
    requires s.layers != [] && !PassesDown(s.layers[|s.layers| - 1])
    ensures HandleEvent(s, key).1 == [s.layers[|s.layers| - 1]]
  {
  }

  /** The pause key pauses the running game and resumes the paused game. */
  lemma PauseToggles(log: seq<Hook>)
    ensures HandleEvent(Stack([GameLayer], log), PauseKey).0.layers == [GameLayer, PauseLayer]
    ensures HandleEvent(Stack([GameLayer, PauseLayer], log), PauseKey).0.layers == [GameLayer]
    ensures HandleEvent(Stack([GameLayer, GameOverLayer], log), PauseKey).0.layers == [GameLayer, GameOverLayer]
  {
    assert [GameLayer, PauseLayer][..1] == [GameLayer];
  }

  /** Space on the game-over screen resets the scene once and returns to the game. */
  lemma SpaceRestarts(log: seq<Hook>)
    ensures var r := HandleEvent(Stack([GameLayer, GameOverLayer], log), SpaceKey);
      r.0.layers == [GameLayer] && r.2 == 1
  {
    assert [GameLayer, GameOverLayer][..1] == [GameLayer];
  }

  /** The top-down update pass over the `i` lowest layers.  The game's update may push
      the game-over screen (when `gameOver` holds); the screens do nothing.  Returns
      the new stack and the layers whose update ran, in order. */
  function UpdateFrom(s: Stack, i: nat, gameOver: bool): (r: (Stack, seq<LayerKind>))
    requires i <= |s.layers|
    ensures |r.1| <= i
    ensures forall j :: 0 <= j < |r.1| ==> r.1[j] == s.layers[i - 1 - j]
    ensures forall j :: 0 <= j < |r.1| - 1 ==> PassesDown(r.1[j])
    ensures |r.1| < i ==> |r.1| > 0 && !PassesDown(r.1[|r.1| - 1])
    decreases i
  {
    if i == 0 then (s, [])
    else
      var k := s.layers[i - 1];
      if PassesDown(k) then
        var s1 := if gameOver then PushLayer(s, Some(GameOverLayer)) else s;
        assert (s.layers + [GameOverLayer])[..|s.layers|] == s.layers;
        assert forall j :: 0 <= j < i - 1 ==> s1.layers[j] == s.layers[j];
        var rest := UpdateFrom(s1, i - 1, gameOver);
        (rest.0, [k] + rest.1)
      else (s, [k])
  }

  /** The update pass over the whole stack, top layer first, stopping after the
      first layer that does not pass updates down. */
  function Update(s: Stack, gameOver: bool): (r: (Stack, seq<LayerKind>))
    ensures s.layers != [] ==> |r.1| > 0 && r.1[0] == s.layers[|s.layers| - 1]
    ensures |r.1| <= |s.layers| && forall j :: 0 <= j < |r.1| ==> r.1[j] == s.layers[|s.layers| - 1 - j]
    ensures forall j :: 0 <= j < |r.1| - 1 ==> PassesDown(r.1[j])
    ensures |r.1| < |s.layers| ==> !PassesDown(r.1[|r.1| - 1])
  {
    UpdateFrom(s, |s.layers|, gameOver)
  }

  /** The game advances exactly when it is the top layer: the pause and game-over
      screens freeze it. */
  lemma GameRunsOnlyOnTop(s: Stack, gameOver: bool)
    requires s.layers == [GameLayer] || s.layers == [GameLayer, PauseLayer] || s.layers == [GameLayer, GameOverLayer]
    ensures GameLayer in Update(s, gameOver).1 <==> s.layers == [GameLayer]
  {
  }

  /** Every layer's draw hook answers true. */
  predicate DrawPassesUp(k: LayerKind)
  {
    true
  }

  /** The bottom-up pass over the layers from index `i`, stopping after the first
      layer whose hook answers false. */
  function BottomUpFrom(layers: seq<LayerKind>, i: nat, answer: LayerKind -> bool): (visited: seq<LayerKind>)
    requires i <= |layers|
    ensures visited <= layers[i..]
    ensures forall j :: 0 <= j < |visited| - 1 ==> answer(visited[j])
    ensures |visited| < |layers| - i ==> |visited| > 0 && !answer(visited[|visited| - 1])
    decreases |layers| - i
  {
    if i == |layers| then []
    else if answer(layers[i]) then
      assert layers[i..] == [layers[i]] + layers[i + 1..];
      [layers[i]] + BottomUpFrom(layers, i + 1, answer)
    else [layers[i]]
  }

  /** The draw pass: bottom first, stopping after the first false answer. */
  function Draw(s: Stack): (drawn: seq<LayerKind>)
    ensures drawn <= s.layers
  {
    BottomUpFrom(s.layers, 0, DrawPassesUp)
  }

  /** Since every draw hook answers true, every layer draws, bottom first: the
      screens are drawn over the game. */
  lemma {:induction false} EveryLayerDraws(layers: seq<LayerKind>, i: nat)
    requires i <= |layers|
    ensures BottomUpFrom(layers, i, DrawPassesUp) == layers[i..]
    decreases |layers| - i
  {
    if i < |layers| {
      EveryLayerDraws(layers, i + 1);
      assert layers[i..] == [layers[i]] + layers[i + 1..];
    }
  }

  /** Every layer is resized, bottom first, whatever its hooks answer. */
  function Resize(s: Stack): (resized: seq<LayerKind>)
    ensures resized == s.layers
  {
    BottomUpFrom(s.layers, 0, _ => true)
  }
}
