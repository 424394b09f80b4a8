/** The viewport arithmetic of the Mandelbrot viewer: screen pixels are mapped
    affinely onto a rectangle of the complex plane, a dragged selection is
    normalised, and releasing the mouse zooms the viewport onto it. */
module Mandelbrot {
  import opened Basics

  /** The visible region of the plane (`viewport_t`). */
  datatype Viewport = Viewport(left: real, right: real, bottom: real, top: real)

  /** raylib's `Rectangle`: a corner and a signed extent; while the mouse is
      dragged the width and height can be negative. */
  datatype Rect = Rect(x: real, y: real, width: real, height: real)

  const ScreenWidth: real := 1280.0
  const ScreenHeight: real := 800.0
  const Aspect: real := ScreenWidth / ScreenHeight

  /** The viewport the viewer starts with and returns to on SPACE. */
  const Home: Viewport := Viewport(-2.0, 0.5, -1.12, 1.12)

  predicate ValidScreen(screen: Vec2)
  {
    screen.x > 0.0 && screen.y > 0.0
  }

  /** `screen_to_local`: the point of the plane shown at a screen position. */
  function ScreenToLocal(screen: Vec2, vp: Viewport, p: Vec2): (q: Vec2)
    requires ValidScreen(screen)
  {
    Vec2(Lerp(p.x / screen.x, vp.left, vp.right), Lerp(p.y / screen.y, vp.bottom, vp.top))
  }

  /** The point at fraction `t` of the way from `lo` to `hi`. */
  function Lerp(t: real, lo: real, hi: real): real
  {
    t * (hi - lo) + lo
  }

  /** The screen's origin shows the viewport's (left, bottom) corner and the
      far screen corner shows (right, top). */
  lemma ScreenCorners(screen: Vec2, vp: Viewport)
    requires ValidScreen(screen)
    ensures ScreenToLocal(screen, vp, Vec2(0.0, 0.0)) == Vec2(vp.left, vp.bottom)
    ensures ScreenToLocal(screen, vp, screen) == Vec2(vp.right, vp.top)
  {
    assert screen.x / screen.x == 1.0;
    assert screen.y / screen.y == 1.0;
  }

  /** The map keeps the order of points along an axis when the viewport is
      not mirrored: further right on screen is further right in the plane. */
  lemma {:induction false} ScreenToLocalMonotone(screen: Vec2, vp: Viewport, p: Vec2, q: Vec2)
    requires ValidScreen(screen)
    requires vp.left < vp.right && vp.bottom < vp.top
    requires p.x < q.x && p.y < q.y
    ensures ScreenToLocal(screen, vp, p).x < ScreenToLocal(screen, vp, q).x
    ensures ScreenToLocal(screen, vp, p).y < ScreenToLocal(screen, vp, q).y
  {
    AxisMonotone(p.x, q.x, screen.x, vp.left, vp.right);
    AxisMonotone(p.y, q.y, screen.y, vp.bottom, vp.top);
  }

  /** One axis of the map: scaling by a positive factor and shifting keeps
      the order. */
  lemma AxisMonotone(a: real, b: real, size: real, lo: real, hi: real)
    requires size > 0.0 && lo < hi && a < b
    ensures Lerp(a / size, lo, hi) < Lerp(b / size, lo, hi)
  {
    var d := b / size - a / size;
    assert d * size == b - a;
    assert d > 0.0;
    assert Lerp(b / size, lo, hi) - Lerp(a / size, lo, hi) == d * (hi - lo);
    assert d * (hi - lo) > 0.0;
  }

  /** `fix_rect`: the same rectangle, given by a corner from which the width
      and height are non-negative. */
  function FixRect(r: Rect): (f: Rect)
    ensures f.width >= 0.0 && f.height >= 0.0
    ensures f.width == Abs(r.width) && f.height == Abs(r.height)
    ensures {f.x, f.x + f.width} == {r.x, r.x + r.width}
    ensures {f.y, f.y + f.height} == {r.y, r.y + r.height}
  {
    var horizontal := if r.width < 0.0 then r.(x := r.x + r.width, width := -r.width) else r;
    if horizontal.height < 0.0 then horizontal.(y := horizontal.y + horizontal.height, height := -horizontal.height)
    else horizontal
  }

  /** A rectangle that already has a non-negative extent is left alone, so
      fixing twice is fixing once. */
  lemma FixRectIdempotent(r: Rect)
    ensures r.width >= 0.0 && r.height >= 0.0 ==> FixRect(r) == r
    ensures FixRect(FixRect(r)) == FixRect(r)
  {
  }

  /** The viewport `set_viewport` installs: the images of the rectangle's two
      corners (x, y) and (x + width, y + height). */
  function Zoom(screen: Vec2, vp: Viewport, r: Rect): (z: Viewport)
    requires ValidScreen(screen)
    ensures Vec2(z.left, z.bottom) == ScreenToLocal(screen, vp, Vec2(r.x, r.y))
    ensures Vec2(z.right, z.top) == ScreenToLocal(screen, vp, Vec2(r.x + r.width, r.y + r.height))
  {
    var p0 := ScreenToLocal(screen, vp, Vec2(r.x, r.y));
    var p1 := ScreenToLocal(screen, vp, Vec2(r.x + r.width, r.y + r.height));
    Viewport(p0.x, p1.x, p0.y, p1.y)
  }

  /** Zooming onto the whole screen changes nothing: the viewer uses this as
      its reset. */
  lemma ZoomFullScreen(screen: Vec2, vp: Viewport)
    requires ValidScreen(screen)
    ensures Zoom(screen, vp, Rect(0.0, 0.0, screen.x, screen.y)) == vp
  {
    ScreenCorners(screen, vp);
    assert 0.0 + screen.x == screen.x && 0.0 + screen.y == screen.y;
  }

  /** A fixed selection with a positive extent keeps the viewport oriented:
      left stays below right and bottom below top. */
  lemma ZoomKeepsOrientation(screen: Vec2, vp: Viewport, r: Rect)
    requires ValidScreen(screen)
    requires vp.left < vp.right && vp.bottom < vp.top
    requires r.width > 0.0 && r.height > 0.0
    ensures Zoom(screen, vp, r).left < Zoom(screen, vp, r).right
    ensures Zoom(screen, vp, r).bottom < Zoom(screen, vp, r).top
  {
    ScreenToLocalMonotone(screen, vp, Vec2(r.x, r.y), Vec2(r.x + r.width, r.y + r.height));
  }

  /** The viewer's state that `set_viewport` overwrites (`context_t`). */
  class Context {
    const screen: Vec2
    var viewport: Viewport

    ghost predicate Valid()
    {
      ValidScreen(screen)
    }

    /** The context `main` builds: the window size and the home viewport,
        immediately reset through `set_viewport` onto the full screen. */
    constructor ()
      ensures Valid()
      ensures screen == Vec2(ScreenWidth, ScreenHeight) && viewport == Home
    {
      screen := Vec2(ScreenWidth, ScreenHeight);
      viewport := Home;
      new;
      SetViewport(Rect(0.0, 0.0, ScreenWidth, ScreenHeight));
    }

    /** `set_viewport`: zoom onto a screen rectangle. */
    method SetViewport(r: Rect)
      requires Valid()
      modifies this
      ensures Valid()
      ensures viewport == Zoom(screen, old(viewport), r)
      ensures r == Rect(0.0, 0.0, screen.x, screen.y) ==> viewport == old(viewport)
    {
      var p0 := ScreenToLocal(screen, viewport, Vec2(r.x, r.y));
      var p1 := ScreenToLocal(screen, viewport, Vec2(r.x + r.width, r.y + r.height));
      ZoomFullScreen(screen, viewport);
      viewport := Viewport(p0.x, p1.x, p0.y, p1.y);
    }

    /** SPACE: back to the home viewport, then the full-screen
        `set_viewport`, which leaves it there. */
    method Reset()
      requires Valid()
      modifies this
      ensures Valid() && viewport == Home
    {
      viewport := Home;
      SetViewport(Rect(0.0, 0.0, screen.x, screen.y));
    }

    /** Releasing the mouse after a selection: zoom onto the fixed
        selection. A selection that is not flat keeps an oriented viewport
        oriented. */
    method Release(sel: Rect)
      requires Valid()
      modifies this
      ensures Valid() && viewport == Zoom(screen, old(viewport), FixRect(sel))
      ensures old(viewport.left < viewport.right && viewport.bottom < viewport.top)
        && sel.width != 0.0 && sel.height != 0.0
        ==> viewport.left < viewport.right && viewport.bottom < viewport.top
    {
      ghost var before := viewport;
      SetViewport(FixRect(sel));
      if before.left < before.right && before.bottom < before.top && sel.width != 0.0 && sel.height != 0.0 {
        ZoomKeepsOrientation(screen, before, FixRect(sel));
      }
    }
  }

  /** `copysign(m, s)`: the magnitude of `m` with the sign of `s`; the
      difference of two equal mouse coordinates is +0, so zero counts as
      positive. */
  function CopySign(m: real, s: real): (c: real)
    ensures Abs(c) == Abs(m)
    ensures s >= 0.0 ==> c >= 0.0
    ensures s < 0.0 ==> c <= 0.0
  {
    if s >= 0.0 then Abs(m) else -Abs(m)
  }

  /** The selection while the button is held: the width follows the mouse and
      the height is forced to width / aspect, keeping the drag direction. */
  function DragSelection(sel: Rect, mouse: Vec2): (r: Rect)
    ensures r.x == sel.x && r.y == sel.y && r.width == mouse.x - sel.x
    ensures Abs(r.height) * Aspect == Abs(r.width)
    ensures mouse.y >= sel.y ==> r.height >= 0.0
    ensures mouse.y < sel.y ==> r.height <= 0.0
  {
    var w := mouse.x - sel.x;
    var h := CopySign(w / Aspect, mouse.y - sel.y);
    assert Abs(w / Aspect) * Aspect == Abs(w);
    sel.(width := w, height := h)
  }
}
