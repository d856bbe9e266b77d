/** What a stack of windows shows at each point, and what painting part of it gives. */
module Composition {
  import opened Errors
  import opened Graphics
  import opened FrameBuffers

  /** A window draws from its shadow buffer, or pixel by pixel from its data if one colour is transparent. */
  datatype Window = Window(width: nat, height: nat, shadow: Picture, data: Picture, transparentColor: Option<Color>)

  datatype Layer = Layer(pos: Vector2D, window: Window)

  predicate WellFormed(w: Window) {
    && Framed(w.shadow) && w.shadow.width == w.width && w.shadow.height == w.height
    && Framed(w.data) && w.data.width == w.width && w.data.height == w.height
  }

  function WindowArea(l: Layer): Rectangle {
    Rectangle(l.pos, Vector2D(l.window.width, l.window.height))
  }

  predicate Opaque(l: Layer) {
    l.window.transparentColor.None?
  }

  predicate Covers(l: Layer, p: Vector2D) {
    Contains(WindowArea(l), p)
  }

  /** The colour at p when the layer lies over something of colour `below`. */
  function Paint(l: Layer, p: Vector2D, below: Color): Color {
    if !Covers(l, p) then below
    else if Opaque(l) then At(l.window.shadow, Minus(p, l.pos))
    else if At(l.window.data, Minus(p, l.pos)) != l.window.transparentColor.value
         then At(l.window.data, Minus(p, l.pos))
    else below
  }

  /** The whole stack, from the bottom to the top. */
  function Over(layers: seq<Layer>, p: Vector2D, below: Color): Color {
    if layers == [] then below
    else Paint(layers[|layers| - 1], p, Over(layers[..|layers| - 1], p, below))
  }

  /** What drawing the layer into an area gives: a window with a transparent colour ignores the area. */
  function PaintIn(l: Layer, area: Rectangle, p: Vector2D, below: Color): Color {
    if Contains(area, p) || !Opaque(l) then Paint(l, p, below) else below
  }

  function Painted(layers: seq<Layer>, area: Rectangle, p: Vector2D, below: Color): Color {
    if layers == [] then below
    else PaintIn(layers[|layers| - 1], area, p, Painted(layers[..|layers| - 1], area, p, below))
  }

  /** Only the top window may have a transparent colour. */
  predicate OpaqueBelow(layers: seq<Layer>) {
    forall i :: 0 <= i < |layers| - 1 ==> Opaque(layers[i])
  }

  /** The top window over something, if it has a transparent colour. */
  function TopPaint(layers: seq<Layer>, p: Vector2D, below: Color): Color {
    if layers != [] && !Opaque(layers[|layers| - 1]) then Paint(layers[|layers| - 1], p, below) else below
  }

  lemma {:induction false} PaintedInside(layers: seq<Layer>, area: Rectangle, p: Vector2D, below: Color)
    requires Contains(area, p)
    ensures Painted(layers, area, p, below) == Over(layers, p, below)
  {
    if layers != [] {
      PaintedInside(layers[..|layers| - 1], area, p, below);
    }
  }

  lemma {:induction false} PaintedOutside(layers: seq<Layer>, area: Rectangle, p: Vector2D, below: Color)
    requires !Contains(area, p) && OpaqueBelow(layers)
    ensures Painted(layers, area, p, below) == TopPaint(layers, p, below)
  {
    if layers != [] {
      var front := layers[..|layers| - 1];
      forall i | 0 <= i < |front| ensures Opaque(front[i]) {
        assert Opaque(layers[i]);
      }
      PaintedOutside(front, area, p, below);
    }
  }

  /** What lies under an opaque window does not matter. */
  lemma {:induction false} OverFrom(layers: seq<Layer>, h: nat, p: Vector2D, x: Color, y: Color)
    requires h < |layers| && Opaque(layers[h]) && Covers(layers[h], p)
    ensures Over(layers, p, x) == Over(layers[h..], p, y)
    decreases |layers|
  {
    var n := |layers| - 1;
    if h < n {
      OverFrom(layers[..n], h, p, x, y);
      assert layers[h..][..n - h] == layers[..n][h..];
    } else {
      assert layers[h..] == [layers[h]];
      assert [layers[h]][..0] == [];
    }
  }

  /** Painting the top window once more changes nothing. */
  lemma TopPaintTwice(layers: seq<Layer>, p: Vector2D, below: Color)
    ensures TopPaint(layers, p, TopPaint(layers, p, below)) == TopPaint(layers, p, below)
    ensures TopPaint(layers, p, Over(layers, p, below)) == Over(layers, p, below)
  {
  }

  /** Two layers that paint alike at p. */
  ghost predicate SamePaint(l: Layer, l': Layer, p: Vector2D) {
    forall x: Color :: Paint(l, p, x) == Paint(l', p, x)
  }

  /** A layer may be exchanged for another that paints alike at p. */
  lemma {:induction false} OverExchange(layers: seq<Layer>, h: nat, l: Layer, p: Vector2D, below: Color)
    requires h < |layers| && SamePaint(layers[h], l, p)
    ensures Over(layers[h := l], p, below) == Over(layers, p, below)
    decreases |layers|
  {
    var n := |layers| - 1;
    if h < n {
      OverExchange(layers[..n], h, l, p, below);
      assert layers[h := l][..n] == layers[..n][h := l];
    } else {
      assert layers[h := l][..n] == layers[..n];
    }
  }

  function Without<T>(s: seq<T>, h: nat): seq<T>
    requires h < |s|
  {
    s[..h] + s[h + 1..]
  }

  /** A layer that does not cover p may be taken away, or put in anywhere. */
  lemma {:induction false} OverWithout(layers: seq<Layer>, h: nat, p: Vector2D, below: Color)
    requires h < |layers| && !Covers(layers[h], p)
    ensures Over(Without(layers, h), p, below) == Over(layers, p, below)
    decreases |layers|
  {
    var n := |layers| - 1;
    if h < n {
      OverWithout(layers[..n], h, p, below);
      assert Without(layers, h)[..n - 1] == Without(layers[..n], h);
    } else {
      assert Without(layers, h) == layers[..n];
    }
  }

  // ----- A screen -----

  /** An opaque window that fills the screen at the bottom, and at most the top one with a transparent colour. */
  predicate Arranged(layers: seq<Layer>, width: nat, height: nat) {
    && |layers| > 0 && OpaqueBelow(layers) && Opaque(layers[0])
    && layers[0].pos == Vector2D(0, 0) && layers[0].window.width == width && layers[0].window.height == height
    && forall i :: 0 <= i < |layers| ==> WellFormed(layers[i].window)
  }

  /** A buffer shows the whole stack. */
  ghost predicate Shows(pic: Picture, layers: seq<Layer>) {
    Framed(pic) && forall p :: On(pic, p) ==> At(pic, p) == Over(layers, p, 0)
  }

  // ----- Pixel by pixel -----

  /** The layer's window covers the pixel, and the colour there is not its transparent one. */
  predicate HasPixel(l: Layer, x: int, y: int) {
    var u, v := x - l.pos.x, y - l.pos.y;
    && 0 <= u < l.window.width && 0 <= v < l.window.height && WellFormed(l.window)
    && l.window.transparentColor != Some(l.window.data.rows[v][u])
  }

  /** The colour the layer gives the pixel: a window without a transparent colour shows its shadow buffer. */
  function Pixel(l: Layer, x: int, y: int): Color
    requires HasPixel(l, x, y)
  {
    var u, v := x - l.pos.x, y - l.pos.y;
    if l.window.transparentColor == None then l.window.shadow.rows[v][u] else l.window.data.rows[v][u]
  }

  /** Of the layers that have the pixel, this one is the highest. */
  predicate Topmost(layers: seq<Layer>, h: nat, x: int, y: int) {
    h < |layers| && HasPixel(layers[h], x, y) && forall k :: h < k < |layers| ==> !HasPixel(layers[k], x, y)
  }

  /** Every pixel has the colour of the highest layer that has it. */
  ghost predicate ShowsTopmost(pic: Picture, layers: seq<Layer>) {
    Framed(pic) && forall x, y :: 0 <= x < pic.width && 0 <= y < pic.height ==>
      TopmostColor(layers, x, y, pic.rows[y][x])
  }

  ghost predicate TopmostColor(layers: seq<Layer>, x: int, y: int, c: Color) {
    exists h: nat :: Topmost(layers, h, x, y) && c == Pixel(layers[h], x, y)
  }

  /** What lies above a layer and does not have the pixel does not matter, and neither does what lies below. */
  lemma {:induction false} OverIsTopmost(layers: seq<Layer>, h: nat, x: int, y: int, below: Color)
    requires Topmost(layers, h, x, y) && forall i :: 0 <= i < |layers| ==> WellFormed(layers[i].window)
    ensures Over(layers, Vector2D(x, y), below) == Pixel(layers[h], x, y)
    decreases |layers|
  {
    var n := |layers| - 1;
    if h < n {
      assert !HasPixel(layers[n], x, y);
      OverIsTopmost(layers[..n], h, x, y, below);
    }
  }

  lemma {:induction false} SomeTopmost(layers: seq<Layer>, x: int, y: int) returns (h: nat)
    requires layers != [] && HasPixel(layers[0], x, y)
    ensures Topmost(layers, h, x, y)
    decreases |layers|
  {
    var n := |layers| - 1;
    if n == 0 || HasPixel(layers[n], x, y) {
      h := n;
    } else {
      h := SomeTopmost(layers[..n], x, y);
    }
  }

  lemma OverIsTopmostColor(layers: seq<Layer>, x: int, y: int, c: Color)
    requires layers != [] && HasPixel(layers[0], x, y) && forall i :: 0 <= i < |layers| ==> WellFormed(layers[i].window)
    ensures c == Over(layers, Vector2D(x, y), 0) <==> TopmostColor(layers, x, y, c)
  {
    hide Over, HasPixel;
    var h := SomeTopmost(layers, x, y);
    forall h: nat | Topmost(layers, h, x, y) ensures Over(layers, Vector2D(x, y), 0) == Pixel(layers[h], x, y) {
      OverIsTopmost(layers, h, x, y, 0);
    }
  }

  /** A picture shows the whole stack exactly if every pixel has the colour of the highest layer that has it. */
  lemma ShowsIsTopmost(pic: Picture, layers: seq<Layer>)
    requires Framed(pic) && Arranged(layers, pic.width, pic.height)
    ensures Shows(pic, layers) <==> ShowsTopmost(pic, layers)
  {
    hide Over, TopmostColor;
    forall x, y | 0 <= x < pic.width && 0 <= y < pic.height
      ensures On(pic, Vector2D(x, y)) && At(pic, Vector2D(x, y)) == pic.rows[y][x]
      ensures pic.rows[y][x] == Over(layers, Vector2D(x, y), 0) <==> TopmostColor(layers, x, y, pic.rows[y][x])
    {
      OverIsTopmostColor(layers, x, y, pic.rows[y][x]);
    }
    forall p | On(pic, p) ensures p == Vector2D(p.x, p.y) && 0 <= p.x < pic.width && 0 <= p.y < pic.height {
    }
    if Shows(pic, layers) {
      forall x, y | 0 <= x < pic.width && 0 <= y < pic.height ensures TopmostColor(layers, x, y, pic.rows[y][x]) {
        assert On(pic, Vector2D(x, y));
      }
    }
    if ShowsTopmost(pic, layers) {
      forall p | On(pic, p) ensures At(pic, p) == Over(layers, p, 0) {
        assert TopmostColor(layers, p.x, p.y, pic.rows[p.y][p.x]);
      }
    }
  }

  /** After drawing an area into the back buffer and copying it: the area is right, the rest of the screen as it was. */
  ghost predicate Refreshed(back: Picture, screen: Picture, back': Picture, screen': Picture, layers: seq<Layer>,
                            area: Rectangle) {
    && Framed(back') && Framed(screen') && SameSize(back, back') && SameSize(screen, screen')
    && forall p :: On(screen', p) ==>
         if Contains(area, p) then At(screen', p) == At(back', p) == Over(layers, p, 0)
         else At(screen', p) == At(screen, p) && At(back', p) == TopPaint(layers, p, At(back, p))
  }

  predicate SameSize(a: Picture, b: Picture) {
    a.width == b.width && a.height == b.height
  }

  /** One point of the screen, after drawing the layers from h on into an area that lies within layer h. */
  lemma PointOfDraw(layers: seq<Layer>, h: nat, area: Rectangle, p: Vector2D, below: Color)
    requires h < |layers| && OpaqueBelow(layers)
    requires Contains(area, p) ==> Covers(layers[h], p)
    ensures Contains(area, p) && Opaque(layers[h]) ==> Painted(layers[h..], area, p, below) == Over(layers, p, 0)
    ensures Contains(area, p) && !Opaque(layers[h]) ==>
        Painted(layers[h..], area, p, below) == TopPaint(layers, p, below)
    ensures !Contains(area, p) ==> Painted(layers[h..], area, p, below) == TopPaint(layers, p, below)
  {
    var upper := layers[h..];
    forall i | 0 <= i < |upper| - 1 ensures Opaque(upper[i]) {
      assert Opaque(layers[h + i]);
    }
    if Contains(area, p) {
      PaintedInside(upper, area, p, below);
      if Opaque(layers[h]) {
        OverFrom(layers, h, p, 0, below);
      } else {
        assert upper == [layers[h]];
        assert upper[..0] == [];
      }
    } else {
      PaintedOutside(upper, area, p, below);
    }
  }
}
