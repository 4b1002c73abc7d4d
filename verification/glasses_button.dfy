/**
  The glass-button page: clicking the button mesh toggles a flag and
  recolours the cube and the button's text between red and green; hovering
  the button makes the text glow. The text mesh exists only once its font has
  loaded, and a hit-click before that throws when it reaches the text. Ray
  casts are external: their results (a hit count, or the list of objects
  hit) are inputs of the handlers.
 */
module GlassesButton {
  import Pointer

  /** A colour as a 0xRRGGBB hex value. */
  type Color = nat

  const Red: Color := 0xff0000
  const Green: Color := 0x00ff00

  /** Text glow before the first frame that sees the text. */
  const InitialIntensity: real := 0.5
  /** Text glow while the pointer is over the button. */
  const HoverIntensity: real := 50.0
  /** Text glow while the pointer is elsewhere. */
  const RestIntensity: real := 1.0

  /** Objects a picking ray can report (the text is a child of the button mesh). */
  datatype SceneObject = ButtonMesh | ButtonText | Cube

  /** The text material, shared by the text mesh once it exists. */
  datatype TextMaterial = TextMaterial(emissive: Color, emissiveIntensity: real)

  /** Everything the handlers read or write. */
  datatype Scene = Scene(
    isCubeGreen: bool,
    cubeColor: Color,
    textMaterial: TextMaterial,
    textLoaded: bool,
    mouse: Pointer.Ndc)

  /** Result of a click: it either runs to the end or throws part-way, keeping the writes made so far. */
  datatype ClickOutcome = Completed(scene: Scene) | TypeError(scene: Scene)

  /** The colour a flag value names. */
  function ColorFor(green: bool): Color {
    if green then Green else Red
  }

  /** Cube and text show the colour the flag names. */
  predicate Consistent(s: Scene) {
    s.cubeColor == ColorFor(s.isCubeGreen) && s.textMaterial.emissive == ColorFor(s.isCubeGreen)
  }

  /** The page as it starts: red cube, red text material, flag off, no text yet. */
  function Initial(): (s: Scene)
    ensures Consistent(s) && !s.isCubeGreen && !s.textLoaded
    ensures s.cubeColor == Red && s.textMaterial.emissive == Red
  {
    Scene(false, Red, TextMaterial(Red, InitialIntensity), false, Pointer.Ndc(0.0, 0.0))
  }

  /** The font has loaded: the text mesh now exists, sharing the text material. */
  function OnFontLoaded(s: Scene): (r: Scene)
    ensures r.textLoaded
    ensures r.(textLoaded := s.textLoaded) == s
  {
    s.(textLoaded := true)
  }

  /**
    The click handler, given how many intersections the picking ray through
    the click point has with the button. A hit recolours the cube, then the
    text, then flips the flag; without the text mesh the second write throws.
   */
  function OnCanvasClick(s: Scene, hitCount: nat): (r: ClickOutcome)
    ensures hitCount == 0 ==> r == Completed(s)
    ensures r.TypeError? <==> hitCount > 0 && !s.textLoaded
    ensures r.Completed? && hitCount > 0 ==>
      && r.scene.isCubeGreen == !s.isCubeGreen
      && Consistent(r.scene)
      && r.scene.(isCubeGreen := s.isCubeGreen, cubeColor := s.cubeColor, textMaterial := s.textMaterial) == s
      && r.scene.textMaterial.emissiveIntensity == s.textMaterial.emissiveIntensity
    ensures r.TypeError? ==>
      && r.scene.cubeColor == ColorFor(!s.isCubeGreen)
      && r.scene.(cubeColor := s.cubeColor) == s
  {
    if hitCount > 0 then
      var target := if s.isCubeGreen then Red else Green;
      var recoloured := s.(cubeColor := target);
      if !recoloured.textLoaded then TypeError(recoloured)
      else
        var withText := recoloured.(textMaterial := recoloured.textMaterial.(emissive := target));
        Completed(withText.(isCubeGreen := !withText.isCubeGreen))
    else
      Completed(s)
  }

  /** The pointer-move handler: stores the pointer's NDC for the next frame's ray cast. */
  function OnMouseMove(s: Scene, at: Pointer.Client, view: Pointer.Viewport): (r: Scene)
    requires Pointer.ValidViewport(view)
    ensures r.mouse == Pointer.ToNdc(at, view)
    ensures r.(mouse := s.mouse) == s
  {
    s.(mouse := Pointer.ToNdc(at, view))
  }

  /** The glow the text has after a frame whose picking ray hit `intersects`. */
  function AfterFrame(s: Scene, intersects: seq<SceneObject>): Scene {
    if !s.textLoaded then s
    else if ButtonMesh in intersects then s.(textMaterial := s.textMaterial.(emissiveIntensity := HoverIntensity))
    else s.(textMaterial := s.textMaterial.(emissiveIntensity := RestIntensity))
  }

  /**
    The hover part of a frame, given the objects the picking ray through the
    stored pointer hit: scan them, glow while the button mesh is among them,
    rest otherwise; with no text yet, nothing changes.
   */
  method Tick(s: Scene, intersects: seq<SceneObject>) returns (r: Scene)
    ensures s.textLoaded && ButtonMesh in intersects ==>
      r == s.(textMaterial := s.textMaterial.(emissiveIntensity := HoverIntensity))
    ensures s.textLoaded && ButtonMesh !in intersects ==>
      r == s.(textMaterial := s.textMaterial.(emissiveIntensity := RestIntensity))
    ensures !s.textLoaded ==> r == s
    ensures r == AfterFrame(s, intersects)
  {
    r := s;
    var isMeshHovered := false;
    var i := 0;
    while i < |intersects|
      invariant 0 <= i <= |intersects|
      invariant isMeshHovered <==> ButtonMesh in intersects[..i]
      invariant !isMeshHovered ==> r == s
      invariant isMeshHovered ==> r == AfterFrame(s, intersects[..i])
    {
      if intersects[i] == ButtonMesh {
        if r.textLoaded {
          r := r.(textMaterial := r.textMaterial.(emissiveIntensity := HoverIntensity));
        }
        isMeshHovered := true;
      }
      assert intersects[..i + 1] == intersects[..i] + [intersects[i]];
      i := i + 1;
    }
    assert intersects[..i] == intersects;
    if !isMeshHovered && r.textLoaded {
      r := r.(textMaterial := r.textMaterial.(emissiveIntensity := RestIntensity));
    }
  }

  /** Two hit-clicks on a loaded, consistent page restore it exactly. */
  lemma ClickInvolution(s: Scene, h1: nat, h2: nat)
    requires Consistent(s) && s.textLoaded
    requires h1 > 0 && h2 > 0
    ensures OnCanvasClick(s, h1).Completed?
    ensures OnCanvasClick(OnCanvasClick(s, h1).scene, h2) == Completed(s)
  {
  }

  /** A hit-click before the font has loaded leaves the cube's colour out of step with the flag. */
  lemma EarlyClickDesyncs(s: Scene, hitCount: nat)
    requires Consistent(s) && !s.textLoaded && hitCount > 0
    ensures OnCanvasClick(s, hitCount).TypeError?
    ensures !Consistent(OnCanvasClick(s, hitCount).scene)
    ensures OnCanvasClick(s, hitCount).scene.isCubeGreen == s.isCubeGreen
  {
  }

  /** What can happen on the page, with the ray-cast results the external picker reported. */
  datatype Event =
    | Click(hitCount: nat)
    | MouseMove(at: Pointer.Client)
    | FontLoaded
    | Frame(intersects: seq<SceneObject>)

  /** One event; a thrown click keeps the writes it made, as the browser's event loop does. */
  function Step(s: Scene, e: Event, view: Pointer.Viewport): Scene
    requires Pointer.ValidViewport(view)
  {
    match e
    case Click(h) => OnCanvasClick(s, h).scene
    case MouseMove(at) => OnMouseMove(s, at, view)
    case FontLoaded => OnFontLoaded(s)
    case Frame(hits) => AfterFrame(s, hits)
  }

  /** A run of events in arrival order. */
  function Run(s: Scene, events: seq<Event>, view: Pointer.Viewport): Scene
    requires Pointer.ValidViewport(view)
    decreases |events|
  {
    if |events| == 0 then s else Run(Step(s, events[0], view), events[1..], view)
  }

  /** No click hits the button while the text has not loaded yet. */
  predicate NoEarlyHitClick(loaded: bool, events: seq<Event>)
    decreases |events|
  {
    if |events| == 0 then true
    else match events[0]
      case Click(h) => (loaded || h == 0) && NoEarlyHitClick(loaded, events[1..])
      case FontLoaded => NoEarlyHitClick(true, events[1..])
      case _ => NoEarlyHitClick(loaded, events[1..])
  }

  /**
    The colour invariant: a run that never hit-clicks before the font has
    loaded keeps cube and text the colour the flag names, from any consistent
    page and in particular from the initial one.
   */
  lemma {:induction false} RunKeepsConsistent(s: Scene, events: seq<Event>, view: Pointer.Viewport)
    requires Pointer.ValidViewport(view)
    requires Consistent(s)
    requires NoEarlyHitClick(s.textLoaded, events)
    ensures Consistent(Run(s, events, view))
    decreases |events|
  {
    if |events| > 0 {
      var next := Step(s, events[0], view);
      assert Consistent(next);
      assert next.textLoaded == (s.textLoaded || events[0].FontLoaded?);
      RunKeepsConsistent(next, events[1..], view);
    }
  }

  /** Runs never unload the text. */
  lemma {:induction false} RunKeepsTextLoaded(s: Scene, events: seq<Event>, view: Pointer.Viewport)
    requires Pointer.ValidViewport(view)
    requires s.textLoaded
    ensures Run(s, events, view).textLoaded
    decreases |events|
  {
    if |events| > 0 {
      RunKeepsTextLoaded(Step(s, events[0], view), events[1..], view);
    }
  }

  /** Handling a run and then one more event is handling that event after the run. */
  lemma {:induction false} RunAppend(s: Scene, events: seq<Event>, e: Event, view: Pointer.Viewport)
    requires Pointer.ValidViewport(view)
    ensures Run(s, events + [e], view) == Step(Run(s, events, view), e, view)
    decreases |events|
  {
    if |events| > 0 {
      assert (events + [e])[1..] == events[1..] + [e];
      RunAppend(Step(s, events[0], view), events[1..], e, view);
    }
  }

  /**
    Recovery: once the text has loaded, any hit-click makes cube and text the
    colour the flag names again, whatever happened before it.
   */
  lemma HitClickResynchronises(s: Scene, events: seq<Event>, hitCount: nat, view: Pointer.Viewport)
    requires Pointer.ValidViewport(view)
    requires s.textLoaded && hitCount > 0
    ensures Consistent(Run(s, events + [Click(hitCount)], view))
  {
    RunAppend(s, events, Click(hitCount), view);
    RunKeepsTextLoaded(s, events, view);
  }

  /**
    From the initial page, a hit-click before the font loads leaves the cube's
    colour out of step with the flag until the next hit-click after the font
    loads.
   */
  lemma InitialEarlyClick(view: Pointer.Viewport)
    requires Pointer.ValidViewport(view)
    ensures Run(Initial(), [Click(1)], view).cubeColor == Green
    ensures !Run(Initial(), [Click(1)], view).isCubeGreen
    ensures !Consistent(Run(Initial(), [Click(1)], view))
    ensures !Consistent(Run(Initial(), [Click(1), FontLoaded], view))
    ensures Consistent(Run(Initial(), [Click(1), FontLoaded, Click(1)], view))
  {
  }
}
