/**
 The layer manager: repainting only what a change can have touched leaves the screen as if everything had
 been painted anew, from the bottom to the top.
 */
module Layers {
  import opened Basics
  import opened Errors
  import opened Graphics
  import opened FrameBuffers
  import opened Composition

  /** Draws a window into a buffer. */
  method DrawTo(dst: FrameBuffer, l: Layer, area: Rectangle)
    requires dst.Valid() && WellFormed(l.window) && Proper(area)
    modifies dst.rows
    ensures dst.Valid()
    ensures forall p :: On(dst.Contents(), p) ==>
        At(dst.Contents(), p) == PaintIn(l, area, p, At(old(dst.Contents()), p))
    ensures forall x, y :: 0 <= x < dst.width && 0 <= y < dst.height ==>
        var u, v, was, now := x - l.pos.x, y - l.pos.y, old(dst.Contents()).rows[y][x], dst.Contents().rows[y][x];
        var inside := 0 <= u < l.window.width && 0 <= v < l.window.height;
        match l.window.transparentColor
        case None =>
          var asked := 0 <= x - area.pos.x < area.size.x && 0 <= y - area.pos.y < area.size.y;
          now == if inside && asked then l.window.shadow.rows[v][u] else was
        case Some(tc) =>
          now == if inside && l.window.data.rows[v][u] != tc then l.window.data.rows[v][u] else was
  {
    hide Intersect;
    ghost var before := dst.Contents();
    if Opaque(l) {
      var intersection := Intersect(area, WindowArea(l));
      forall p ensures Contains(intersection, p) <==> Contains(area, p) && Covers(l, p) {
        IntersectContains(area, WindowArea(l), p);
      }
      IntersectContains(area, WindowArea(l), l.pos);
      dst.Copy(intersection.pos, l.window.shadow, Rectangle(Minus(intersection.pos, l.pos), intersection.size));
    } else {
      DrawTransparent(dst, l);
    }
    DrawnPixels(before, dst.Contents(), l, area);
  }

  lemma DrawnPixels(before: Picture, after: Picture, l: Layer, area: Rectangle)
    requires Framed(before) && Framed(after) && SameSize(before, after) && WellFormed(l.window)
    requires forall p :: On(after, p) ==> At(after, p) == PaintIn(l, area, p, At(before, p))
    ensures forall x, y :: 0 <= x < after.width && 0 <= y < after.height ==>
        var u, v, was, now := x - l.pos.x, y - l.pos.y, before.rows[y][x], after.rows[y][x];
        var inside := 0 <= u < l.window.width && 0 <= v < l.window.height;
        match l.window.transparentColor
        case None =>
          var asked := 0 <= x - area.pos.x < area.size.x && 0 <= y - area.pos.y < area.size.y;
          now == if inside && asked then l.window.shadow.rows[v][u] else was
        case Some(tc) =>
          now == if inside && l.window.data.rows[v][u] != tc then l.window.data.rows[v][u] else was
  {
    forall x, y | 0 <= x < after.width && 0 <= y < after.height
      ensures after.rows[y][x] == PaintIn(l, area, Vector2D(x, y), before.rows[y][x])
    {
      assert On(after, Vector2D(x, y)) && On(before, Vector2D(x, y));
    }
  }

  /** Pixel by pixel, leaving out what is off the screen or transparent. */
  method DrawTransparent(dst: FrameBuffer, l: Layer)
    requires dst.Valid() && WellFormed(l.window) && !Opaque(l)
    modifies dst.rows
    ensures dst.Valid()
    ensures forall p :: On(dst.Contents(), p) ==> At(dst.Contents(), p) == Paint(l, p, At(old(dst.Contents()), p))
  {
    ghost var was := dst.Contents();
    var tc := l.window.transparentColor.value;
    var y := Max(0, 0 - l.pos.y);
    while y < Graphics.Min(l.window.height, dst.height - l.pos.y)
      invariant 0 <= y && 0 <= y + l.pos.y && dst.Valid()
      invariant forall p :: On(dst.Contents(), p) ==>
                  At(dst.Contents(), p) == if p.y - l.pos.y < y then Paint(l, p, At(was, p)) else At(was, p)
    {
      DrawTransparentRow(dst, l, y, tc);
      y := y + 1;
    }
  }

  method DrawTransparentRow(dst: FrameBuffer, l: Layer, y: nat, tc: Color)
    requires dst.Valid() && WellFormed(l.window) && l.window.transparentColor == Some(tc)
    requires y < l.window.height && 0 <= y + l.pos.y < dst.height
    modifies dst.rows
    ensures dst.Valid()
    ensures forall p :: On(dst.Contents(), p) ==>
              At(dst.Contents(), p) == if p.y - l.pos.y == y then Paint(l, p, At(old(dst.Contents()), p))
                                       else At(old(dst.Contents()), p)
  {
    ghost var was := dst.Contents();
    var x := Max(0, 0 - l.pos.x);
    while x < Graphics.Min(l.window.width, dst.width - l.pos.x)
      invariant 0 <= x && 0 <= x + l.pos.x && dst.Valid()
      invariant forall p :: On(dst.Contents(), p) ==>
                  At(dst.Contents(), p) == if p.y - l.pos.y == y && p.x - l.pos.x < x then Paint(l, p, At(was, p))
                                           else At(was, p)
    {
      var c := At(l.window.data, Vector2D(x, y));
      if c != tc {
        dst.Write(Plus(l.pos, Vector2D(x, y)), c);
      }
      x := x + 1;
    }
  }

  /** The layers of a stack of ids, from the bottom to the top. */
  function StackOf(layers: map<nat, Layer>, stack: seq<nat>): (s: seq<Layer>)
    requires forall i :: 0 <= i < |stack| ==> stack[i] in layers
    ensures |s| == |stack| && forall i :: 0 <= i < |stack| ==> s[i] == layers[stack[i]]
  {
    seq(|stack|, i requires 0 <= i < |stack| => layers[stack[i]])
  }

  /** Where an id is in the stack, or -1. */
  function Height(stack: seq<nat>, id: nat): (h: int)
    ensures -1 <= h < |stack| && (h >= 0 ==> stack[h] == id)
    ensures h == -1 <==> id !in stack
  {
    if stack == [] then -1
    else if stack[0] == id then 0
    else
      var h := Height(stack[1..], id);
      if h < 0 then -1 else h + 1
  }

  class LayerManager {
    const screen: FrameBuffer
    const backBuffer: FrameBuffer
    var layers: map<nat, Layer>
    var stack: seq<nat>

    constructor (screen: FrameBuffer)
      ensures this.screen == screen && fresh(backBuffer) && fresh(backBuffer.rows)
      ensures backBuffer.Valid() && backBuffer.width == screen.width && backBuffer.height == screen.height
      ensures layers == map[] && stack == []
    {
      this.screen := screen;
      backBuffer := new FrameBuffer(screen.width, screen.height);
      layers, stack := map[], [];
    }

    ghost predicate Valid()
      reads this, screen, backBuffer, screen.rows, backBuffer.rows
    {
      && screen.Valid() && backBuffer.Valid() && screen.rows != backBuffer.rows
      && backBuffer.width == screen.width && backBuffer.height == screen.height
      && (forall i :: 0 <= i < |stack| ==> stack[i] in layers) && NoDuplicates(stack)
      && Arranged(Stack(), screen.width, screen.height)
    }

    ghost function Stack(): seq<Layer>
      reads this
      requires forall i :: 0 <= i < |stack| ==> stack[i] in layers
    {
      StackOf(layers, stack)
    }

    /** The screen, and the back buffer, show the whole stack. */
    ghost predicate UpToDate()
      reads this, screen, backBuffer, screen.rows, backBuffer.rows
      requires Valid()
    {
      Shows(screen.Contents(), Stack()) && Shows(backBuffer.Contents(), Stack())
    }

    /** Repaints an area from the bottom up. */
    method DrawArea(area: Rectangle)
      requires Valid() && Proper(area)
      modifies backBuffer.rows, screen.rows
      ensures Valid()
      ensures Refreshed(old(backBuffer.Contents()), old(screen.Contents()), backBuffer.Contents(), screen.Contents(),
                        Stack(), area)
    {
      hide Arranged, Over, Painted, Paint;
      ghost var back, all := backBuffer.Contents(), Stack();
      DrawLayers(0, area);
      screen.Copy(area.pos, backBuffer.Contents(), area);
      forall p | On(screen.Contents(), p)
        ensures Contains(area, p) ==> At(backBuffer.Contents(), p) == Over(all, p, 0)
        ensures !Contains(area, p) ==> At(backBuffer.Contents(), p) == TopPaint(all, p, At(back, p))
      {
        PointOfFullDraw(all, area, p, At(back, p), screen.width, screen.height);
      }
    }

    /** Draws the layers from height h on into the back buffer. */
    method DrawLayers(h: nat, area: Rectangle)
      requires Valid() && Proper(area) && h <= |stack|
      modifies backBuffer.rows
      ensures Valid()
      ensures forall p :: On(backBuffer.Contents(), p) ==>
                At(backBuffer.Contents(), p) == Painted(Stack()[h..], area, p, At(old(backBuffer.Contents()), p))
    {
      hide PaintIn, Contains, At, On;
      ghost var upper, was := Stack()[h..], backBuffer.Contents();
      var i := h;
      while i < |stack|
        invariant h <= i <= |stack| && Valid()
        invariant forall p :: On(was, p) ==>
                    At(backBuffer.Contents(), p) == Painted(upper[..i - h], area, p, At(was, p))
      {
        ghost var before := backBuffer.Contents();
        DrawTo(backBuffer, layers[stack[i]], area);
        assert upper[..i + 1 - h][..i - h] == upper[..i - h];
        SameOutline(was, backBuffer.Contents());
        SameOutline(was, before);
        i := i + 1;
      }
      assert upper[..i - h] == upper;
      SameOutline(was, backBuffer.Contents());
    }

    /** The area a layer's own repaint is limited to: its window, or the part of it asked for. */
    ghost function DamagedArea(l: Layer, area: Rectangle): Rectangle {
      if area.size.x >= 0 || area.size.y >= 0
      then Intersect(WindowArea(l), Rectangle(Plus(area.pos, l.pos), area.size))
      else WindowArea(l)
    }

    /**
     Repaints part of a layer's window, from that layer up.  Where the layer is opaque the area shows the whole
     stack afterwards; a transparent top window is painted over what the back buffer held.
     */
    method DrawWindowArea(id: nat, area: Rectangle)
      requires Valid() && id in stack && (area.size.x >= 0 <==> area.size.y >= 0)
      modifies backBuffer.rows, screen.rows
      ensures Valid()
      ensures var l := layers[id];
              var damaged := DamagedArea(l, area);
              if Opaque(l)
              then Refreshed(old(backBuffer.Contents()), old(screen.Contents()), backBuffer.Contents(),
                             screen.Contents(), Stack(), damaged)
              else TopPainted(old(backBuffer.Contents()), old(screen.Contents()), backBuffer.Contents(),
                              screen.Contents(), Stack(), damaged)
    {
      hide Arranged, Over, Painted, Paint, Intersect;
      ghost var back, all := backBuffer.Contents(), Stack();
      var h := Height(stack, id);
      assert Opaque(layers[id]) || h == |stack| - 1 by { OnlyTopTransparent(all, h, screen.width, screen.height); }
      var windowArea := WindowArea(layers[id]);
      if area.size.x >= 0 || area.size.y >= 0 {
        windowArea := Intersect(windowArea, Rectangle(Plus(area.pos, layers[id].pos), area.size));
        forall p ensures Contains(windowArea, p) ==> Covers(layers[id], p) {
          IntersectContains(WindowArea(layers[id]), Rectangle(Plus(area.pos, layers[id].pos), area.size), p);
        }
        IntersectContains(WindowArea(layers[id]), Rectangle(Plus(area.pos, layers[id].pos), area.size), area.pos);
      }
      DrawLayers(h, windowArea);
      screen.Copy(windowArea.pos, backBuffer.Contents(), windowArea);
      BelowTopOpaque(all, screen.width, screen.height);
      forall p | On(screen.Contents(), p)
        ensures Contains(windowArea, p) && Opaque(all[h]) ==> At(backBuffer.Contents(), p) == Over(all, p, 0)
        ensures !Contains(windowArea, p) || !Opaque(all[h]) ==>
            At(backBuffer.Contents(), p) == TopPaint(all, p, At(back, p))
      {
        PointOfDraw(all, h, windowArea, p, At(back, p));
      }
    }

    /** Repaints a layer's window. */
    method DrawLayer(id: nat)
      requires Valid() && id in stack
      modifies backBuffer.rows, screen.rows
      ensures Valid()
      ensures var l := layers[id];
              if Opaque(l)
              then Refreshed(old(backBuffer.Contents()), old(screen.Contents()), backBuffer.Contents(),
                             screen.Contents(), Stack(), WindowArea(l))
              else TopPainted(old(backBuffer.Contents()), old(screen.Contents()), backBuffer.Contents(),
                              screen.Contents(), Stack(), WindowArea(l))
    {
      DrawWindowArea(id, Rectangle(Vector2D(0, 0), Vector2D(-1, -1)));
    }

    /** A layer, but not the bottom one, moves; the screen shows it there. */
    method Move(id: nat, newPos: Vector2D)
      requires Valid() && UpToDate() && id in stack && id != stack[0]
      modifies this`layers, backBuffer.rows, screen.rows
      ensures Valid() && UpToDate() && stack == old(stack)
      ensures layers == old(layers)[id := old(layers[id]).(pos := newPos)]
      ensures ShowsTopmost(screen.Contents(), Stack())
    {
      hide Arranged, Over, Paint, Shows, Refreshed, TopPainted;
      ghost var was, back0, screen0 := Stack(), backBuffer.Contents(), screen.Contents();
      ghost var h := Height(stack, id);
      var layer := layers[id];
      layers := layers[id := layer.(pos := newPos)];
      ghost var now := Stack();
      assert now == was[h := layer.(pos := newPos)];
      StillArranged(was, h, layer.(pos := newPos), screen.width, screen.height);
      DrawArea(WindowArea(layer));
      ghost var back1, screen1 := backBuffer.Contents(), screen.Contents();
      DrawLayer(id);
      Moved(was, now, h, screen.width, screen.height, back0, screen0, back1, screen1, backBuffer.Contents(),
            screen.Contents());
      ShowsIsTopmost(screen.Contents(), Stack());
    }

    method MoveRelative(id: nat, posDiff: Vector2D)
      requires Valid() && UpToDate() && id in stack && id != stack[0]
      modifies this`layers, backBuffer.rows, screen.rows
      ensures Valid() && UpToDate() && stack == old(stack)
      ensures layers == old(layers)[id := old(layers[id]).(pos := Plus(old(layers[id]).pos, posDiff))]
    {
      Move(id, Plus(layers[id].pos, posDiff));
    }

    /** The window of an opaque layer changes its contents and is drawn. */
    method Redraw(id: nat, window: Window)
      requires Valid() && UpToDate() && id in stack && Repainted(layers[id].window, window)
      modifies this`layers, backBuffer.rows, screen.rows
      ensures Valid() && UpToDate() && stack == old(stack)
      ensures layers == old(layers)[id := old(layers[id]).(window := window)]
    {
      hide Arranged, Over, Paint, Shows, Refreshed, TopPainted;
      ghost var was, back0, screen0 := Stack(), backBuffer.Contents(), screen.Contents();
      ghost var h := Height(stack, id);
      var layer := layers[id].(window := window);
      layers := layers[id := layer];
      ghost var now := Stack();
      assert now == was[h := layer];
      RepaintedArranged(was, h, layer, screen.width, screen.height);
      DrawLayer(id);
      Changed(was, now, WindowArea(layer), screen.width, screen.height, back0, screen0, backBuffer.Contents(),
              screen.Contents());
    }

    /** The window of an opaque layer changes its contents inside an area, and that area is drawn. */
    method RedrawArea(id: nat, window: Window, area: Rectangle)
      requires Valid() && UpToDate() && id in stack && Repainted(layers[id].window, window)
      requires Proper(area) && SameOutside(layers[id].window, window, area)
      modifies this`layers, backBuffer.rows, screen.rows
      ensures Valid() && UpToDate() && stack == old(stack)
      ensures layers == old(layers)[id := old(layers[id]).(window := window)]
    {
      hide Arranged, Over, Paint, Shows, Refreshed, TopPainted, SameOutside;
      ghost var was, back0, screen0 := Stack(), backBuffer.Contents(), screen.Contents();
      ghost var h := Height(stack, id);
      var layer := layers[id].(window := window);
      layers := layers[id := layer];
      ghost var now := Stack();
      assert now == was[h := layer];
      RepaintedArranged(was, h, layer, screen.width, screen.height);
      RepaintedPart(was, h, layer, area);
      DrawWindowArea(id, area);
      Changed(was, now, DamagedArea(layer, area), screen.width, screen.height, back0, screen0, backBuffer.Contents(),
              screen.Contents());
    }

    /** Takes a layer out of the stack. */
    method Hide(id: nat)
      modifies this`stack
      ensures stack == var h := Height(old(stack), id); if h >= 0 then Without(old(stack), h) else old(stack)
    {
      var h := Height(stack, id);
      if h >= 0 {
        stack := Without(stack, h);
      }
    }

    /** Puts a layer to a height, counted without it; beyond the top means the top, below 0 means out of the stack. */
    method UpDown(id: nat, newHeight: int)
      modifies this`stack
      ensures stack == PutAt(old(stack), id, newHeight)
    {
      if newHeight < 0 {
        Hide(id);
        return;
      }
      var newPos := if newHeight > |stack| then |stack| else newHeight;
      var oldPos := Height(stack, id);
      if oldPos < 0 {
        stack := stack[..newPos] + [id] + stack[newPos..];
        return;
      }
      if newPos == |stack| {
        newPos := newPos - 1;
      }
      var rest := Without(stack, oldPos);
      stack := rest[..newPos] + [id] + rest[newPos..];
    }

    /** Takes a layer away for good. */
    method RemoveLayer(id: nat)
      modifies this`stack, this`layers
      ensures stack == var h := Height(old(stack), id); if h >= 0 then Without(old(stack), h) else old(stack)
      ensures layers == old(layers) - {id}
    {
      Hide(id);
      layers := layers - {id};
    }

    /** A layer with new contents goes to the place below the top one, and is drawn. */
    method Raise(id: nat, window: Window, mouseLayer: nat)
      requires Valid() && UpToDate() && |stack| > 1 && mouseLayer == stack[|stack| - 1]
      requires id in layers && id != stack[0] && id != mouseLayer && Repainted(layers[id].window, window)
      modifies this, backBuffer.rows, screen.rows
      ensures Valid() && UpToDate()
      ensures layers == old(layers)[id := old(layers[id]).(window := window)]
      ensures stack == BelowTop(old(stack), id)
    {
      hide Arranged, Over, Paint, Shows, Refreshed, TopPainted, PutAt, BelowTop, Height;
      ghost var was, ids, back0, screen0 := Stack(), stack, backBuffer.Contents(), screen.Contents();
      var layer := layers[id].(window := window);
      layers := layers[id := layer];
      UpDown(id, 0);
      UpDown(id, Height(stack, mouseLayer) - 1);
      RaisedIds(ids, id);
      RaisedStack(old(layers), ids, id, layer, screen.width, screen.height);
      DrawLayer(id);
      Changed(was, Stack(), WindowArea(layer), screen.width, screen.height, back0, screen0, backBuffer.Contents(),
              screen.Contents());
    }

    /** What is left when a layer is removed and the area of its window painted anew. */
    method RemoveAndRepaint(id: nat)
      requires Valid() && UpToDate() && id in layers && id != stack[0]
      modifies this`stack, this`layers, backBuffer.rows, screen.rows
      ensures Valid() && UpToDate() && layers == old(layers) - {id} && stack == Rest(old(stack), id)
    {
      hide Arranged, Over, Paint, Shows, Refreshed, TopPainted;
      ghost var was, ids, back0, screen0 := Stack(), stack, backBuffer.Contents(), screen.Contents();
      var layer := layers[id];
      RemoveLayer(id);
      RemovedStack(old(layers), ids, id, screen.width, screen.height);
      DrawArea(WindowArea(layer));
      Changed(was, Stack(), WindowArea(layer), screen.width, screen.height, back0, screen0, backBuffer.Contents(),
              screen.Contents());
    }
  }

  /** The layers once the window of one of them has changed; 0 names none. */
  function Restyled(layers: map<nat, Layer>, id: nat, window: Window): map<nat, Layer> {
    if id != 0 && id in layers then layers[id := layers[id].(window := window)] else layers
  }

  class ActiveLayer {
    const manager: LayerManager
    const mouseLayer: nat
    var active: nat

    constructor (manager: LayerManager, mouseLayer: nat)
      ensures this.manager == manager && this.mouseLayer == mouseLayer && active == 0
    {
      this.manager, this.mouseLayer, active := manager, mouseLayer, 0;
    }

    /** The mouse is on top, and the active layer is one of the windows between it and the bottom. */
    ghost predicate Valid()
      reads this, manager, manager.screen, manager.backBuffer, manager.screen.rows, manager.backBuffer.rows
    {
      && manager.Valid() && manager.UpToDate()
      && |manager.stack| > 1 && manager.stack[|manager.stack| - 1] == mouseLayer
      && (active != 0 ==> active in manager.stack && active != mouseLayer && active != manager.stack[0])
    }

    /**
     Makes another layer, or none (0), the active one.  The title bars of both windows change; `faded` and
     `lit` are what the windows look like then.
     */
    method Activate(layerId: nat, faded: Window, lit: Window)
      requires Valid()
      requires active != 0 ==> Repainted(manager.layers[active].window, faded)
      requires layerId != 0 ==>
                 && layerId in manager.layers && layerId != manager.stack[0] && layerId != mouseLayer
                 && Repainted(manager.layers[layerId].window, lit)
      modifies this, manager, manager.backBuffer.rows, manager.screen.rows
      ensures Valid() && active == layerId && manager.layers.Keys == old(manager.layers.Keys)
      ensures manager.layers == if active == old(active) then old(manager.layers)
                                else Restyled(Restyled(old(manager.layers), old(active), faded), layerId, lit)
      ensures manager.stack == if active != old(active) && layerId != 0 then BelowTop(old(manager.stack), layerId)
                               else old(manager.stack)
      ensures active != old(active) && layerId != 0 ==>
        var n := |manager.stack|;
        && n > 2 && manager.stack[n - 1] == mouseLayer && manager.stack[n - 2] == layerId
        && forall a, b :: a in old(manager.stack) && b in old(manager.stack) && a != layerId && b != layerId ==>
             (Height(old(manager.stack), a) < Height(old(manager.stack), b) <==>
              Height(manager.stack, a) < Height(manager.stack, b))
    {
      hide LayerManager.UpToDate, Arranged, Repainted, BelowTop, Shows, Height;
      if active == layerId {
        return;
      }
      if active > 0 {
        manager.Redraw(active, faded);
      }
      active := layerId;
      if active > 0 {
        ghost var ids := manager.stack;
        BelowTopEnds(ids, active);
        manager.Raise(active, lit, mouseLayer);
        forall a, b | a in ids && b in ids && a != active && b != active
          ensures Height(ids, a) < Height(ids, b) <==> Height(manager.stack, a) < Height(manager.stack, b)
        {
          BelowTopOrder(ids, active, a, b);
        }
      }
    }

    /** Closes a window: no layer is active afterwards, and what it covered is painted anew. */
    method CloseLayer(layerId: nat, faded: Window) returns (err: Error)
      requires Valid() && layerId != manager.stack[0] && layerId != mouseLayer
      requires active != 0 ==> Repainted(manager.layers[active].window, faded)
      modifies this, manager, manager.backBuffer.rows, manager.screen.rows
      ensures Valid()
      ensures layerId !in old(manager.layers) <==> err == NoSuchEntry
      ensures err == NoSuchEntry ==>
                active == old(active) && manager.layers == old(manager.layers) && manager.stack == old(manager.stack)
      ensures err != NoSuchEntry ==>
                && err == Success && active == 0 && layerId !in manager.stack
                && manager.layers == Restyled(old(manager.layers), old(active), faded) - {layerId}
                && manager.stack == Rest(old(manager.stack), layerId)
    {
      if layerId !in manager.layers {
        return NoSuchEntry;
      }
      Activate(0, faded, faded);
      RestIds(manager.stack, layerId);
      RestEnds(manager.stack, layerId);
      manager.RemoveAndRepaint(layerId);
      err := Success;
    }
  }

  /** A window's contents differ inside an area only. */
  ghost predicate SameOutside(w: Window, w': Window, area: Rectangle) {
    forall q :: !Contains(area, q) ==> At(w'.shadow, q) == At(w.shadow, q)
  }

  lemma RepaintedPart(layers: seq<Layer>, h: nat, l: Layer, area: Rectangle)
    requires h < |layers| && l.pos == layers[h].pos && Repainted(layers[h].window, l.window)
    requires Proper(area) && SameOutside(layers[h].window, l.window, area)
    ensures var damaged := Intersect(WindowArea(l), Rectangle(Plus(area.pos, l.pos), area.size));
            forall p :: !Contains(damaged, p) ==> Over(layers[h := l], p, 0) == Over(layers, p, 0)
  {
    var shifted := Rectangle(Plus(area.pos, l.pos), area.size);
    forall p | !Contains(Intersect(WindowArea(l), shifted), p)
      ensures Over(layers[h := l], p, 0) == Over(layers, p, 0)
    {
      IntersectContains(WindowArea(l), shifted, p);
      if Covers(l, p) {
        assert !Contains(area, Minus(p, l.pos));
      }
      assert SamePaint(layers[h], l, p);
      OverExchange(layers, h, l, p, 0);
    }
  }

  /** The stack after UpDown. */
  function PutAt(stack: seq<nat>, id: nat, newHeight: int): seq<nat> {
    var h := Height(stack, id);
    var n := |stack|;
    if newHeight < 0 then (if h >= 0 then Without(stack, h) else stack)
    else if h < 0 then
      var k := if newHeight > n then n else newHeight;
      stack[..k] + [id] + stack[k..]
    else
      var k := if newHeight >= n then n - 1 else newHeight;
      Without(stack, h)[..k] + [id] + Without(stack, h)[k..]
  }

  /** The stack without an id. */
  function Rest(stack: seq<nat>, id: nat): seq<nat> {
    var h := Height(stack, id);
    if h >= 0 then Without(stack, h) else stack
  }

  /** The stack with an id right below the top. */
  function BelowTop(stack: seq<nat>, id: nat): seq<nat> {
    var rest := Rest(stack, id);
    if rest == [] then [id] else rest[..|rest| - 1] + [id] + [rest[|rest| - 1]]
  }

  lemma RestIds(stack: seq<nat>, id: nat)
    requires NoDuplicates(stack)
    ensures var rest := Rest(stack, id);
            && NoDuplicates(rest) && id !in rest
            && (forall other :: other in rest <==> other in stack && other != id)
            && (|stack| > 1 && stack[|stack| - 1] != id ==> |rest| > 0 && rest[|rest| - 1] == stack[|stack| - 1])
            && (|stack| > 1 && stack[0] != id ==> |rest| > 0 && rest[0] == stack[0])
  {
    var rest, h := Rest(stack, id), Height(stack, id);
    if h >= 0 {
      forall other | other in stack && other != id ensures other in rest {
        var i :| 0 <= i < |stack| && stack[i] == other;
        assert rest[if i < h then i else i - 1] == other;
      }
    }
  }

  lemma {:induction false} HeightOfLast(stack: seq<nat>, id: nat)
    requires NoDuplicates(stack) && stack != [] && stack[|stack| - 1] == id
    ensures Height(stack, id) == |stack| - 1
  {
    if |stack| > 1 {
      HeightOfLast(stack[1..], id);
    }
  }

  /** Neither end changes when something in between is taken away. */
  lemma RestEnds(stack: seq<nat>, id: nat)
    requires NoDuplicates(stack) && |stack| > 1 && id != stack[0] && id != stack[|stack| - 1]
    ensures var rest := Rest(stack, id);
            |rest| > 1 && rest[0] == stack[0] && rest[|rest| - 1] == stack[|stack| - 1]
  {
    RestIds(stack, id);
    assert stack[0] != stack[|stack| - 1];
  }

  lemma BelowTopEnds(stack: seq<nat>, id: nat)
    requires NoDuplicates(stack) && |stack| > 1 && id != stack[0] && id != stack[|stack| - 1]
    ensures var now := BelowTop(stack, id);
            |now| > 2 && now[0] == stack[0] && now[|now| - 1] == stack[|stack| - 1] && now[|now| - 2] == id && id in now
  {
    hide Rest;
    RestEnds(stack, id);
    var rest := Rest(stack, id);
    assert BelowTop(stack, id)[|rest| - 1] == id;
  }

  lemma {:induction false} HeightWithout(stack: seq<nat>, h: nat, a: nat)
    requires h < |stack| && NoDuplicates(stack) && a in stack && a != stack[h]
    ensures Height(Without(stack, h), a) == if Height(stack, a) < h then Height(stack, a) else Height(stack, a) - 1
    ensures a in Without(stack, h)
  {
    var k := Height(stack, a);
    var i := if k < h then k else k - 1;
    var rest := Without(stack, h);
    assert rest[i] == a;
    WithoutNoDuplicates(stack, h);
    HeightIs(rest, i);
  }

  lemma WithoutNoDuplicates(stack: seq<nat>, h: nat)
    requires h < |stack| && NoDuplicates(stack)
    ensures NoDuplicates(Without(stack, h))
  {
  }

  lemma HeightIs(stack: seq<nat>, i: nat)
    requires NoDuplicates(stack) && i < |stack|
    ensures Height(stack, stack[i]) == i
  {
  }

  /** Putting an id somewhere keeps the order of the others. */
  lemma InsertedOrder(rest: seq<nat>, k: nat, id: nat, a: nat, b: nat)
    requires NoDuplicates(rest) && k <= |rest| && id !in rest && a in rest && b in rest
    ensures var now := rest[..k] + [id] + rest[k..];
            Height(rest, a) < Height(rest, b) <==> Height(now, a) < Height(now, b)
  {
    var now := rest[..k] + [id] + rest[k..];
    assert NoDuplicates(now);
    assert Without(now, k) == rest;
    HeightWithout(now, k, a);
    HeightWithout(now, k, b);
  }

  lemma RestOrder(stack: seq<nat>, id: nat, a: nat, b: nat)
    requires NoDuplicates(stack) && a in stack && b in stack && a != id && b != id
    ensures Height(stack, a) < Height(stack, b) <==> Height(Rest(stack, id), a) < Height(Rest(stack, id), b)
  {
    hide Height, NoDuplicates, Without;
    if Height(stack, id) >= 0 {
      HeightWithout(stack, Height(stack, id), a);
      HeightWithout(stack, Height(stack, id), b);
    }
  }

  lemma BelowTopIs(stack: seq<nat>, id: nat)
    requires NoDuplicates(stack) && |stack| > 1 && id != stack[0] && id != stack[|stack| - 1]
    ensures var rest, n := Rest(stack, id), |Rest(stack, id)|;
            n > 1 && BelowTop(stack, id) == rest[..n - 1] + [id] + rest[n - 1..]
  {
    hide Height, NoDuplicates, Rest;
    RestEnds(stack, id);
  }

  /** Bringing an id up below the top keeps the order of the others. */
  lemma BelowTopOrder(stack: seq<nat>, id: nat, a: nat, b: nat)
    requires NoDuplicates(stack) && |stack| > 1 && id != stack[0] && id != stack[|stack| - 1]
    requires a in stack && b in stack && a != id && b != id
    ensures Height(stack, a) < Height(stack, b) <==> Height(BelowTop(stack, id), a) < Height(BelowTop(stack, id), b)
  {
    hide Height, NoDuplicates, Rest, BelowTop;
    var rest, n := Rest(stack, id), |Rest(stack, id)|;
    RestIds(stack, id);
    RestOrder(stack, id, a, b);
    BelowTopIs(stack, id);
    InsertedOrder(rest, n - 1, id, a, b);
  }

  /** UpDown puts an id as high as asked for, or on top, counted without it; below 0 it leaves the stack. */
  lemma PutAtPlace(stack: seq<nat>, id: nat, newHeight: int)
    requires NoDuplicates(stack)
    ensures var now, others := PutAt(stack, id, newHeight), if id in stack then |stack| - 1 else |stack|;
      && (newHeight < 0 <==> id !in now) && NoDuplicates(now)
      && (newHeight >= 0 ==> Height(now, id) == if newHeight < others then newHeight else others)
  {
    hide Height, NoDuplicates, Rest, PutAt;
    var rest := Rest(stack, id);
    RestIds(stack, id);
    PutAtIs(stack, id, newHeight);
    if newHeight >= 0 {
      InsertedPlace(rest, if newHeight < |rest| then newHeight else |rest|, id);
    }
  }

  /** The others keep their order. */
  lemma PutAtOrder(stack: seq<nat>, id: nat, newHeight: int, a: nat, b: nat)
    requires NoDuplicates(stack) && a in stack && b in stack && a != id && b != id
    ensures var now := PutAt(stack, id, newHeight);
            Height(stack, a) < Height(stack, b) <==> Height(now, a) < Height(now, b)
  {
    hide Height, NoDuplicates, Rest, PutAt;
    var rest := Rest(stack, id);
    RestIds(stack, id);
    PutAtIs(stack, id, newHeight);
    RestOrder(stack, id, a, b);
    if newHeight >= 0 {
      InsertedOrder(rest, if newHeight < |rest| then newHeight else |rest|, id, a, b);
    }
  }

  lemma PutAtIs(stack: seq<nat>, id: nat, newHeight: int)
    ensures var rest := Rest(stack, id);
            var k := if newHeight < |rest| then newHeight else |rest|;
            PutAt(stack, id, newHeight) == if newHeight < 0 then rest else rest[..k] + [id] + rest[k..]
    ensures |Rest(stack, id)| == if id in stack then |stack| - 1 else |stack|
  {
    hide Height;
  }

  lemma InsertedPlace(rest: seq<nat>, k: nat, id: nat)
    requires NoDuplicates(rest) && k <= |rest| && id !in rest
    ensures var now := rest[..k] + [id] + rest[k..];
            NoDuplicates(now) && id in now && Height(now, id) == k
  {
    var now := rest[..k] + [id] + rest[k..];
    assert now[k] == id;
    HeightIs(now, k);
  }

  /** Down to the bottom and up again to just below the mouse. */
  lemma RaisedIds(stack: seq<nat>, id: nat)
    requires NoDuplicates(stack) && |stack| > 1 && stack[|stack| - 1] != id
    ensures var mouse := stack[|stack| - 1];
            var low := PutAt(stack, id, 0);
            PutAt(low, id, Height(low, mouse) - 1) == BelowTop(stack, id)
  {
    hide Height, PutAt, Rest, NoDuplicates;
    var mouse, rest := stack[|stack| - 1], Rest(stack, id);
    RestIds(stack, id);
    PutLowest(stack, id);
    Lowered(rest, id);
    HeightOfLast([id] + rest, mouse);
    PutBelowTop(rest, id);
  }

  lemma PutLowest(stack: seq<nat>, id: nat)
    requires |stack| > 1
    ensures PutAt(stack, id, 0) == [id] + Rest(stack, id)
  {
    hide Height;
    var rest := Rest(stack, id);
    assert rest[..0] + [id] + rest[0..] == [id] + rest;
  }

  lemma Lowered(rest: seq<nat>, id: nat)
    requires NoDuplicates(rest) && id !in rest
    ensures NoDuplicates([id] + rest) && Height([id] + rest, id) == 0
  {
  }

  lemma PutBelowTop(rest: seq<nat>, id: nat)
    requires |rest| > 0 && Height([id] + rest, id) == 0
    ensures PutAt([id] + rest, id, |rest| - 1) == rest[..|rest| - 1] + [id] + [rest[|rest| - 1]]
  {
    hide Height;
    assert Without([id] + rest, 0) == rest;
  }

  lemma RestStack(layers: map<nat, Layer>, stack: seq<nat>, id: nat, p: Vector2D)
    requires (forall i :: 0 <= i < |stack| ==> stack[i] in layers) && id in layers
    requires !Covers(layers[id], p)
    ensures forall i :: 0 <= i < |Rest(stack, id)| ==> Rest(stack, id)[i] in layers
    ensures Over(StackOf(layers, Rest(stack, id)), p, 0) == Over(StackOf(layers, stack), p, 0)
  {
    hide Over, Covers, Height;
    var h := Height(stack, id);
    if h >= 0 {
      OverWithout(StackOf(layers, stack), h, p, 0);
      assert StackOf(layers, Rest(stack, id)) == Without(StackOf(layers, stack), h);
    }
  }

  lemma RaisedStack(layers: map<nat, Layer>, stack: seq<nat>, id: nat, layer: Layer, width: nat, height: nat)
    requires (forall i :: 0 <= i < |stack| ==> stack[i] in layers) && NoDuplicates(stack)
    requires Arranged(StackOf(layers, stack), width, height) && |stack| > 1
    requires id in layers && id != stack[0] && id != stack[|stack| - 1]
    requires layer.pos == layers[id].pos && Repainted(layers[id].window, layer.window)
    ensures var layers', stack' := layers[id := layer], BelowTop(stack, id);
            && (forall i :: 0 <= i < |stack'| ==> stack'[i] in layers') && NoDuplicates(stack') && id in stack'
            && Arranged(StackOf(layers', stack'), width, height)
            && forall p :: !Covers(layer, p) ==>
                Over(StackOf(layers', stack'), p, 0) == Over(StackOf(layers, stack), p, 0)
  {
    hide Over, Arranged, Rest, BelowTop, Covers;
    RaisedValid(layers, stack, id, layer);
    RaisedArranged(layers, stack, id, layer, width, height);
    forall p | !Covers(layer, p)
      ensures Over(StackOf(layers[id := layer], BelowTop(stack, id)), p, 0) == Over(StackOf(layers, stack), p, 0)
    {
      RaisedPoint(layers, stack, id, layer, p);
    }
  }

  lemma RaisedValid(layers: map<nat, Layer>, stack: seq<nat>, id: nat, layer: Layer)
    requires (forall i :: 0 <= i < |stack| ==> stack[i] in layers) && NoDuplicates(stack) && |stack| > 1
    requires id in layers && id != stack[0] && id != stack[|stack| - 1]
    ensures var stack' := BelowTop(stack, id);
            (forall i :: 0 <= i < |stack'| ==> stack'[i] in layers[id := layer]) && NoDuplicates(stack') && id in stack'
  {
    hide Rest;
    RestIds(stack, id);
    var stack', rest := BelowTop(stack, id), Rest(stack, id);
    var n := |rest| - 1;
    assert stack'[n] == id;
    forall i | 0 <= i < |stack'| ensures stack'[i] in layers[id := layer] {
      assert stack'[i] == if i < n then rest[i] else if i == n then id else rest[n];
      assert i != n ==> stack'[i] in rest;
    }
  }

  lemma RaisedPoint(layers: map<nat, Layer>, stack: seq<nat>, id: nat, layer: Layer, p: Vector2D)
    requires (forall i :: 0 <= i < |stack| ==> stack[i] in layers) && NoDuplicates(stack) && |stack| > 1
    requires id in layers && id != stack[0] && id != stack[|stack| - 1]
    requires forall i :: 0 <= i < |BelowTop(stack, id)| ==> BelowTop(stack, id)[i] in layers[id := layer]
    requires WindowArea(layer) == WindowArea(layers[id]) && !Covers(layer, p)
    ensures Over(StackOf(layers[id := layer], BelowTop(stack, id)), p, 0) == Over(StackOf(layers, stack), p, 0)
  {
    hide Over, Rest;
    RestIds(stack, id);
    var rest, now := Rest(stack, id), StackOf(layers[id := layer], BelowTop(stack, id));
    var n := |rest| - 1;
    RestStack(layers, stack, id, p);
    OverWithout(now, n, p, 0);
    assert Without(now, n) == StackOf(layers, rest) by {
      assert forall i :: 0 <= i < |rest| ==> rest[i] in rest;
    }
  }

  lemma RaisedArranged(layers: map<nat, Layer>, stack: seq<nat>, id: nat, layer: Layer, width: nat, height: nat)
    requires (forall i :: 0 <= i < |stack| ==> stack[i] in layers) && NoDuplicates(stack)
    requires Arranged(StackOf(layers, stack), width, height) && |stack| > 1
    requires id in layers && id != stack[0] && id != stack[|stack| - 1] && Repainted(layers[id].window, layer.window)
    requires forall i :: 0 <= i < |BelowTop(stack, id)| ==> BelowTop(stack, id)[i] in layers[id := layer]
    ensures Arranged(StackOf(layers[id := layer], BelowTop(stack, id)), width, height)
  {
    hide Rest;
    RestIds(stack, id);
    RestEnds(stack, id);
    var rest, now := Rest(stack, id), StackOf(layers[id := layer], BelowTop(stack, id));
    var was := StackOf(layers, stack);
    var n := |rest| - 1;
    forall i | 0 <= i < |now| ensures WellFormed(now[i].window) && (i < |now| - 1 ==> Opaque(now[i])) {
      if i != n {
        var x := if i < n then i else n;
        var j := RestAt(stack, id, x);
        assert BelowTop(stack, id)[i] == rest[x] && now[i] == was[j];
      }
    }
    assert now[0] == was[0];
  }

  /** Where an id of the rest was in the whole stack. */
  lemma RestAt(stack: seq<nat>, id: nat, x: nat) returns (j: nat)
    requires NoDuplicates(stack) && x < |Rest(stack, id)| && |stack| > 1 && stack[|stack| - 1] != id
    ensures j < |stack| && stack[j] == Rest(stack, id)[x] && stack[j] != id
    ensures x < |Rest(stack, id)| - 1 ==> j < |stack| - 1
  {
    hide Height, NoDuplicates, Without;
    RestIds(stack, id);
    var h, rest := Height(stack, id), Rest(stack, id);
    j := if h < 0 || x < h then x else x + 1;
    if h >= 0 {
      WithoutAt(stack, h, x);
    }
    assert rest[x] in rest;
  }

  lemma WithoutAt(stack: seq<nat>, h: nat, x: nat)
    requires h < |stack| && x < |Without(stack, h)|
    ensures |Without(stack, h)| == |stack| - 1 && Without(stack, h)[x] == stack[if x < h then x else x + 1]
  {
  }

  lemma RemovedStack(layers: map<nat, Layer>, stack: seq<nat>, id: nat, width: nat, height: nat)
    requires (forall i :: 0 <= i < |stack| ==> stack[i] in layers) && NoDuplicates(stack)
    requires Arranged(StackOf(layers, stack), width, height) && id in layers && id != stack[0]
    ensures var layers', stack' := layers - {id}, Rest(stack, id);
            && (forall i :: 0 <= i < |stack'| ==> stack'[i] in layers') && NoDuplicates(stack') && id !in stack'
            && (forall other :: other in stack && other != id ==> other in stack')
            && Arranged(StackOf(layers', stack'), width, height)
            && forall p :: !Covers(layers[id], p) ==>
                Over(StackOf(layers', stack'), p, 0) == Over(StackOf(layers, stack), p, 0)
  {
    hide Over;
    RestIds(stack, id);
    var layers', stack' := layers - {id}, Rest(stack, id);
    forall i | 0 <= i < |stack'| ensures stack'[i] in layers' {
      assert stack'[i] in stack;
    }
    var was, now := StackOf(layers, stack), StackOf(layers', stack');
    var h := Height(stack, id);
    assert h >= 0 ==> now == Without(was, h);
    assert h < 0 ==> now == was;
    if h >= 0 {
      assert stack[0] in stack';
    }
    forall p | !Covers(layers[id], p) ensures Over(now, p, 0) == Over(was, p, 0) {
      RestStack(layers, stack, id, p);
      assert StackOf(layers, stack') == now;
    }
  }

  lemma OnlyTopTransparent(layers: seq<Layer>, h: nat, width: nat, height: nat)
    requires Arranged(layers, width, height) && h < |layers|
    ensures Opaque(layers[h]) || h == |layers| - 1
  {
  }

  lemma BelowTopOpaque(layers: seq<Layer>, width: nat, height: nat)
    requires Arranged(layers, width, height)
    ensures OpaqueBelow(layers)
  {
  }

  /** The transparent top window painted into the back buffer, and its area copied to the screen. */
  ghost predicate TopPainted(back: Picture, screen: Picture, back': Picture, screen': Picture, layers: seq<Layer>,
                             area: Rectangle) {
    && Framed(back') && Framed(screen') && SameSize(back, back') && SameSize(screen, screen')
    && forall p :: On(screen', p) ==>
         && At(back', p) == TopPaint(layers, p, At(back, p))
         && At(screen', p) == if Contains(area, p) then At(back', p) else At(screen, p)
  }

  lemma StillArranged(layers: seq<Layer>, h: nat, l: Layer, width: nat, height: nat)
    requires Arranged(layers, width, height) && 0 < h < |layers| && l.window == layers[h].window
    ensures Arranged(layers[h := l], width, height)
  {
  }

  /** New contents of the same shape, for a window without a transparent colour. */
  predicate Repainted(w: Window, w': Window) {
    && WellFormed(w') && w'.width == w.width && w'.height == w.height
    && w.transparentColor == None && w'.transparentColor == None
  }

  lemma RepaintedArranged(layers: seq<Layer>, h: nat, l: Layer, width: nat, height: nat)
    requires Arranged(layers, width, height) && h < |layers| && l.pos == layers[h].pos
    requires Repainted(layers[h].window, l.window)
    ensures Arranged(layers[h := l], width, height) && OpaqueBelow(layers[h := l])
    ensures forall p :: !Covers(l, p) ==> Over(layers[h := l], p, 0) == Over(layers, p, 0)
  {
    forall p | !Covers(l, p) ensures Over(layers[h := l], p, 0) == Over(layers, p, 0) {
      OverExchange(layers, h, l, p, 0);
    }
  }

  /** If the stack shows something new in one area only, refreshing that area is enough. */
  lemma Changed(was: seq<Layer>, now: seq<Layer>, area: Rectangle, width: nat, height: nat,
                back: Picture, screen: Picture, back': Picture, screen': Picture)
    requires SameSize(back, screen) && Shows(back, was) && Shows(screen, was)
    requires forall p :: !Contains(area, p) ==> Over(now, p, 0) == Over(was, p, 0)
    requires Refreshed(back, screen, back', screen', now, area)
    ensures Shows(back', now) && Shows(screen', now)
  {
    hide Over;
    SameOutline(back, back');
    SameOutline(screen, screen');
    SameOutline(back, screen);
    forall p | On(screen', p) ensures At(screen', p) == Over(now, p, 0) && At(back', p) == Over(now, p, 0) {
      if !Contains(area, p) {
        TopPaintTwice(now, p, 0);
      }
    }
  }

  /** The two repaints of a move. */
  lemma Moved(was: seq<Layer>, now: seq<Layer>, h: nat, width: nat, height: nat, back0: Picture, screen0: Picture,
              back1: Picture, screen1: Picture, back2: Picture, screen2: Picture)
    requires 0 < h < |was| == |now| && Arranged(now, width, height) && now == was[h := now[h]]
    requires now[h].window == was[h].window
    requires SameSize(back0, screen0) && Shows(back0, was) && Shows(screen0, was)
    requires Refreshed(back0, screen0, back1, screen1, now, WindowArea(was[h]))
    requires if Opaque(now[h]) then Refreshed(back1, screen1, back2, screen2, now, WindowArea(now[h]))
             else TopPainted(back1, screen1, back2, screen2, now, WindowArea(now[h]))
    ensures Shows(back2, now) && Shows(screen2, now)
  {
    hide Arranged, Over, Paint, TopPaint;
    SameOutline(back0, back2);
    SameOutline(screen0, screen2);
    SameOutline(screen0, screen1);
    SameOutline(back0, screen0);
    OnlyTopTransparent(now, h, width, height);
    forall p | On(screen2, p) ensures At(screen2, p) == Over(now, p, 0) && At(back2, p) == Over(now, p, 0) {
      MovedPoint(was, now, h, p);
      TopPaintTwice(now, p, At(back0, p));
      TopPaintTwice(now, p, 0);
    }
  }

  /** Outside the old window the stack shows what it showed, with the moved window painted where it is now. */
  lemma MovedPoint(was: seq<Layer>, now: seq<Layer>, h: nat, p: Vector2D)
    requires h < |was| == |now| && now == was[h := now[h]] && now[h].window == was[h].window
        && (Opaque(now[h]) || h == |now| - 1)
    ensures !Covers(was[h], p) && !Covers(now[h], p) ==> Over(now, p, 0) == Over(was, p, 0)
    ensures !Covers(was[h], p) && !Opaque(now[h]) ==> Over(now, p, 0) == TopPaint(now, p, Over(was, p, 0))
  {
    if !Covers(was[h], p) {
      if !Covers(now[h], p) {
        OverExchange(was, h, now[h], p, 0);
      }
      if !Opaque(now[h]) {
        assert now[..h] == was[..h];
      }
    }
  }

  lemma SameOutline(a: Picture, b: Picture)
    requires SameSize(a, b)
    ensures forall p :: On(a, p) <==> On(b, p)
  {
  }

  lemma PointOfFullDraw(layers: seq<Layer>, area: Rectangle, p: Vector2D, below: Color, width: nat, height: nat)
    requires Arranged(layers, width, height) && Contains(Outline(width, height), p)
    ensures Contains(area, p) ==> Painted(layers[0..], area, p, below) == Over(layers, p, 0)
    ensures !Contains(area, p) ==> Painted(layers[0..], area, p, below) == TopPaint(layers, p, below)
  {
    assert layers[0..] == layers;
    PaintedOutsideOrIn(layers, area, p, below);
    OverFrom(layers, 0, p, below, 0);
  }

  lemma PaintedOutsideOrIn(layers: seq<Layer>, area: Rectangle, p: Vector2D, below: Color)
    requires OpaqueBelow(layers)
    ensures Contains(area, p) ==> Painted(layers, area, p, below) == Over(layers, p, below)
    ensures !Contains(area, p) ==> Painted(layers, area, p, below) == TopPaint(layers, p, below)
  {
    if Contains(area, p) {
      PaintedInside(layers, area, p, below);
    } else {
      PaintedOutside(layers, area, p, below);
    }
  }
}
