/**
  Pointer hover over the particle image: every pointer move stores the
  pointer's NDC, records whether the picking ray hit the point cloud, and
  sets the point-size uniform to a small size on a hit and the default size
  otherwise. The ray cast itself is external; its number of intersections is
  an input of the handler.
 */
module ParticleHover {
  import Pointer

  /** Default point size, the uniform's initial value. */
  const DefaultPointSize: real := 8.0
  /** Point size while the pointer is over the cloud. */
  const HoverPointSize: real := 0.3

  /** The state the move handler writes: the pointer, the hit flag, the point-size uniform. */
  datatype HoverState = HoverState(mouse: Pointer.Ndc, isCursorOverMesh: bool, pointSize: real)

  /** One pointer move: where it happened and how many points the picking ray hit there. */
  datatype Move = Move(at: Pointer.Client, hitCount: nat)

  /** The state before any pointer move. */
  function Initial(): (s: HoverState)
    ensures Consistent(s) && !s.isCursorOverMesh
  {
    HoverState(Pointer.Ndc(0.0, 0.0), false, DefaultPointSize)
  }

  /** The point size always matches the hit flag. */
  predicate Consistent(s: HoverState) {
    s.pointSize == (if s.isCursorOverMesh then HoverPointSize else DefaultPointSize)
  }

  /** The pointer-move handler of the particle page. */
  function OnMouseMove(s: HoverState, m: Move, view: Pointer.Viewport): (r: HoverState)
    requires Pointer.ValidViewport(view)
    ensures r.mouse == Pointer.ToNdc(m.at, view)
    ensures r.isCursorOverMesh <==> m.hitCount > 0
    ensures r.pointSize == HoverPointSize <==> m.hitCount > 0
    ensures r.pointSize == DefaultPointSize <==> m.hitCount == 0
    ensures Consistent(r)
  {
    var mouse := Pointer.ToNdc(m.at, view);
    var isCursorOverMesh := m.hitCount > 0;
    HoverState(mouse, isCursorOverMesh, if isCursorOverMesh then HoverPointSize else DefaultPointSize)
  }

  /** A sequence of pointer moves, handled in arrival order. */
  function Replay(s: HoverState, moves: seq<Move>, view: Pointer.Viewport): HoverState
    requires Pointer.ValidViewport(view)
    decreases |moves|
  {
    if |moves| == 0 then s
    else Replay(OnMouseMove(s, moves[0], view), moves[1..], view)
  }

  /** The handler's result does not depend on the state before it: the last write wins. */
  lemma MoveForgetsPast(s1: HoverState, s2: HoverState, m: Move, view: Pointer.Viewport)
    requires Pointer.ValidViewport(view)
    ensures OnMouseMove(s1, m, view) == OnMouseMove(s2, m, view)
  {
  }

  /** Handling the same sample twice is the same as handling it once. */
  lemma MoveIdempotent(s: HoverState, m: Move, view: Pointer.Viewport)
    requires Pointer.ValidViewport(view)
    ensures OnMouseMove(OnMouseMove(s, m, view), m, view) == OnMouseMove(s, m, view)
  {
  }

  /** After a non-empty run of moves, the state is what the latest move alone produces. */
  lemma {:induction false} ReplayKeepsLatest(s: HoverState, moves: seq<Move>, view: Pointer.Viewport)
    requires Pointer.ValidViewport(view)
    requires |moves| > 0
    ensures Replay(s, moves, view) == OnMouseMove(Initial(), moves[|moves| - 1], view)
    decreases |moves|
  {
    if |moves| > 1 {
      ReplayKeepsLatest(OnMouseMove(s, moves[0], view), moves[1..], view);
      assert moves[1..][|moves[1..]| - 1] == moves[|moves| - 1];
    }
  }

  /** Every run of moves keeps the point size matched to the hit flag. */
  lemma {:induction false} ReplayConsistent(s: HoverState, moves: seq<Move>, view: Pointer.Viewport)
    requires Pointer.ValidViewport(view)
    requires Consistent(s)
    ensures Consistent(Replay(s, moves, view))
    ensures Replay(s, moves, view).pointSize == HoverPointSize
         || Replay(s, moves, view).pointSize == DefaultPointSize
    decreases |moves|
  {
    if |moves| > 0 {
      ReplayConsistent(OnMouseMove(s, moves[0], view), moves[1..], view);
    }
  }

  /** The same move, `n` times over: a pointer held still. */
  function Repeat(m: Move, n: nat): (r: seq<Move>)
    ensures |r| == n && forall j :: 0 <= j < n ==> r[j] == m
  {
    seq(n, _ => m)
  }

  /**
    Moving from a miss onto the cloud and holding there: the size drops to
    the hover size on the first hit and stays there after every repeated hit.
   */
  lemma HoldOnCloudStaysSmall(s: HoverState, miss: Move, hit: Move, view: Pointer.Viewport)
    requires Pointer.ValidViewport(view)
    requires miss.hitCount == 0 && hit.hitCount > 0
    ensures OnMouseMove(s, miss, view).pointSize == DefaultPointSize
    ensures forall n: nat :: n >= 1 ==>
      Replay(OnMouseMove(s, miss, view), Repeat(hit, n), view).pointSize == HoverPointSize
  {
    forall n: nat | n >= 1
      ensures Replay(OnMouseMove(s, miss, view), Repeat(hit, n), view).pointSize == HoverPointSize
    {
      ReplayKeepsLatest(OnMouseMove(s, miss, view), Repeat(hit, n), view);
    }
  }
}
