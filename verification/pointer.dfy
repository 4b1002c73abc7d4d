/**
  Mapping of a pointer event's client coordinates to normalized device
  coordinates (NDC), as both demo pages compute it before every ray cast:
  x grows from -1 at the left edge to 1 at the right edge, y falls from 1 at
  the top edge to -1 at the bottom edge. Arithmetic is over reals; the
  browser's double rounding is not modelled.
 */
module Pointer {

  /** A point in normalized device coordinates (a `THREE.Vector2`). */
  datatype Ndc = Ndc(x: real, y: real)

  /** A point in client (CSS pixel) coordinates of the window. */
  datatype Client = Client(x: real, y: real)

  /** The window's inner size. */
  datatype Viewport = Viewport(width: real, height: real)

  /** A window that has an area; the division by its size is defined. */
  predicate ValidViewport(view: Viewport) {
    view.width > 0.0 && view.height > 0.0
  }

  /** The affine map from client coordinates to NDC used by every pointer handler. */
  function ToNdc(c: Client, view: Viewport): (r: Ndc)
    requires ValidViewport(view)
    ensures 0.0 <= c.x <= view.width <==> -1.0 <= r.x <= 1.0
    ensures 0.0 <= c.y <= view.height <==> -1.0 <= r.y <= 1.0
  {
    UnitInterval(c.x, view.width);
    UnitInterval(c.y, view.height);
    Ndc((c.x / view.width) * 2.0 - 1.0, -(c.y / view.height) * 2.0 + 1.0)
  }

  /** The inverse map, from NDC back to the client point it came from. */
  function ToClient(n: Ndc, view: Viewport): (r: Client)
    requires ValidViewport(view)
    ensures -1.0 <= n.x <= 1.0 <==> 0.0 <= r.x <= view.width
    ensures -1.0 <= n.y <= 1.0 <==> 0.0 <= r.y <= view.height
  {
    var gx := (n.x + 1.0) / 2.0;
    var gy := (1.0 - n.y) / 2.0;
    ScaleInterval(gx, view.width);
    ScaleInterval(gy, view.height);
    Client(gx * view.width, gy * view.height)
  }

  /** NDC mapping and its inverse undo each other, in both orders. */
  lemma NdcRoundTrip(c: Client, n: Ndc, view: Viewport)
    requires ValidViewport(view)
    ensures ToClient(ToNdc(c, view), view) == c
    ensures ToNdc(ToClient(n, view), view) == n
  {
  }

  /** The corners of the window land on the corners of the NDC square. */
  lemma NdcCorners(view: Viewport)
    requires ValidViewport(view)
    ensures ToNdc(Client(0.0, 0.0), view) == Ndc(-1.0, 1.0)
    ensures ToNdc(Client(view.width, view.height), view) == Ndc(1.0, -1.0)
    ensures ToNdc(Client(view.width / 2.0, view.height / 2.0), view) == Ndc(0.0, 0.0)
  {
    MulCancel(1.0, view.width);
    MulCancel(1.0, view.height);
    MulCancel(0.5, view.width);
    MulCancel(0.5, view.height);
  }

  /** NDC x is strictly increasing in client x; NDC y is strictly decreasing in client y. */
  lemma NdcMonotone(a: Client, b: Client, view: Viewport)
    requires ValidViewport(view)
    ensures a.x < b.x <==> ToNdc(a, view).x < ToNdc(b, view).x
    ensures a.y < b.y <==> ToNdc(a, view).y > ToNdc(b, view).y
  {
    DivMonotone(a.x, b.x, view.width);
    DivMonotone(a.y, b.y, view.height);
  }


  /** Multiplying by a positive real and dividing back is the identity. */
  lemma MulCancel(g: real, d: real)
    requires d > 0.0
    ensures (g * d) / d == g
  {
  }

  /** `p` lies in `[0, d]` exactly when `p / d` lies in the unit interval. */
  lemma UnitInterval(p: real, d: real)
    requires d > 0.0
    ensures 0.0 <= p <= d <==> 0.0 <= p / d <= 1.0
  {
  }

  /** `g` lies in the unit interval exactly when `g * d` lies in `[0, d]`. */
  lemma ScaleInterval(g: real, d: real)
    requires d > 0.0
    ensures 0.0 <= g <= 1.0 <==> 0.0 <= g * d <= d
  {
  }

  /** Division by a positive real preserves strict order, both ways. */
  lemma DivMonotone(p: real, q: real, d: real)
    requires d > 0.0
    ensures p < q <==> p / d < q / d
  {
  }
}
