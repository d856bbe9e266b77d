/** Pixel buffers: rows of colours, copied row by row with clipping at both ends. */
module FrameBuffers {
  import opened Graphics

  type Color = nat

  /** The contents of a buffer. */
  datatype Picture = Picture(width: nat, height: nat, rows: seq<seq<Color>>)

  predicate Framed(p: Picture) {
    |p.rows| == p.height && forall y :: 0 <= y < p.height ==> |p.rows[y]| == p.width
  }

  function Outline(width: nat, height: nat): Rectangle {
    Rectangle(Vector2D(0, 0), Vector2D(width, height))
  }

  predicate On(pic: Picture, p: Vector2D) {
    Contains(Outline(pic.width, pic.height), p)
  }

  /** The colour of a pixel; outside the picture there is none, and 0 stands for it. */
  function At(pic: Picture, p: Vector2D): Color {
    if Framed(pic) && On(pic, p) then pic.rows[p.y][p.x] else 0
  }

  /** The part of a copy that lies inside both buffers, where it arrives. */
  function CopyArea(dst: Picture, dstPos: Vector2D, src: Picture, srcArea: Rectangle): Rectangle {
    Intersect(Intersect(Outline(dst.width, dst.height),
                        Rectangle(Minus(dstPos, srcArea.pos), Vector2D(src.width, src.height))),
              Rectangle(dstPos, srcArea.size))
  }

  /** A pixel is copied iff it and its origin are on the buffers and the origin is in the area asked for. */
  lemma CopyAreaContains(dst: Picture, dstPos: Vector2D, src: Picture, srcArea: Rectangle, p: Vector2D)
    requires Proper(srcArea)
    ensures var origin := Minus(p, Minus(dstPos, srcArea.pos));
            Contains(CopyArea(dst, dstPos, src, srcArea), p) <==>
              On(dst, p) && On(src, origin) && Contains(srcArea, origin)
    ensures Proper(CopyArea(dst, dstPos, src, srcArea))
  {
    var a, b := Outline(dst.width, dst.height), Rectangle(Minus(dstPos, srcArea.pos), Vector2D(src.width, src.height));
    IntersectContains(a, b, p);
    IntersectContains(Intersect(a, b), Rectangle(dstPos, srcArea.size), p);
  }

  /** The rows copied lie inside both buffers. */
  lemma CopyAreaInside(dst: Picture, dstPos: Vector2D, src: Picture, srcArea: Rectangle)
    requires Proper(srcArea)
    ensures var area := CopyArea(dst, dstPos, src, srcArea); var start := Minus(area.pos, Minus(dstPos, srcArea.pos));
            area.size.x > 0 && area.size.y > 0 ==>
              && 0 <= area.pos.x && area.pos.x + area.size.x <= dst.width
              && 0 <= area.pos.y && area.pos.y + area.size.y <= dst.height
              && 0 <= start.x && start.x + area.size.x <= src.width
              && 0 <= start.y && start.y + area.size.y <= src.height
  {
    var area := CopyArea(dst, dstPos, src, srcArea);
    CopyAreaContains(dst, dstPos, src, srcArea, area.pos);
    CopyAreaContains(dst, dstPos, src, srcArea, Vector2D(area.pos.x + area.size.x - 1, area.pos.y + area.size.y - 1));
  }

  lemma CopiedPixels(dst: Picture, dstPos: Vector2D, src: Picture, srcArea: Rectangle)
    requires Proper(srcArea)
    ensures forall p :: On(dst, p) ==>
              var origin := Minus(p, Minus(dstPos, srcArea.pos));
              Contains(CopyArea(dst, dstPos, src, srcArea), p) <==> On(src, origin) && Contains(srcArea, origin)
  {
    forall p | On(dst, p)
      ensures var origin := Minus(p, Minus(dstPos, srcArea.pos));
              Contains(CopyArea(dst, dstPos, src, srcArea), p) <==> On(src, origin) && Contains(srcArea, origin)
    {
      CopyAreaContains(dst, dstPos, src, srcArea, p);
    }
  }

  class FrameBuffer {
    const width: nat
    const height: nat
    const rows: array<seq<Color>>

    constructor (width: nat, height: nat)
      ensures Valid() && this.width == width && this.height == height && fresh(rows)
    {
      this.width, this.height := width, height;
      rows := new seq<Color>[height](_ => seq(width, _ => 0));
    }

    function Contents(): Picture
      reads rows
    {
      Picture(width, height, rows[..])
    }

    predicate Valid()
      reads rows
    {
      Framed(Contents())
    }

    /** Writes one pixel of the buffer. */
    method Write(p: Vector2D, c: Color)
      requires Valid() && On(Contents(), p)
      modifies rows
      ensures Valid() && forall q :: On(Contents(), q) ==> At(Contents(), q) == if q == p then c
          else At(old(Contents()), q)
    {
      rows[p.y] := rows[p.y][p.x := c];
    }

    /**
     Copies an area of another buffer, given by its contents, to a place in this one.  What would fall outside
     either of them is left out; every other pixel keeps its colour.
     */
    method Copy(dstPos: Vector2D, src: Picture, srcArea: Rectangle)
      requires Valid() && Framed(src) && Proper(srcArea)
      modifies rows
      ensures Valid()
      ensures forall p :: On(Contents(), p) ==>
                var origin := Minus(p, Minus(dstPos, srcArea.pos));
                At(Contents(), p) == if On(src, origin) && Contains(srcArea, origin) then At(src, origin)
                                     else At(old(Contents()), p)
    {
      hide CopyArea, Intersect;
      ghost var was := Contents();
      var copyArea := CopyArea(Contents(), dstPos, src, srcArea);
      var srcStart := Minus(copyArea.pos, Minus(dstPos, srcArea.pos));
      var y := 0;
      CopyAreaInside(was, dstPos, src, srcArea);
      CopyAreaContains(was, dstPos, src, srcArea, copyArea.pos);
      while y < copyArea.size.y
        invariant 0 <= y && (y <= copyArea.size.y || y == 0) && Valid()
        invariant forall p :: On(Contents(), p) ==>
                    At(Contents(), p) ==
                    if Contains(copyArea, p) && p.y < copyArea.pos.y + y
                    then At(src, Minus(p, Minus(dstPos, srcArea.pos)))
                    else At(was, p)
      {
        CopyRow(copyArea.pos.y + y, copyArea.pos.x, src, srcStart.y + y, srcStart.x, copyArea.size.x);
        y := y + 1;
      }
      CopiedPixels(was, dstPos, src, srcArea);
    }

    /** Copies n pixels of a row to a row of this buffer. */
    method CopyRow(y: int, x: int, src: Picture, srcY: int, srcX: int, n: int)
      requires Valid() && Framed(src)
      requires n > 0 ==> 0 <= y < height && 0 <= x && x + n <= width
      requires n > 0 ==> 0 <= srcY < src.height && 0 <= srcX && srcX + n <= src.width
      modifies rows
      ensures Valid()
      ensures forall p :: On(Contents(), p) ==>
                At(Contents(), p) == if p.y == y && x <= p.x < x + n then At(src, Vector2D(p.x - x + srcX, srcY))
                                     else At(old(Contents()), p)
    {
      if n > 0 {
        rows[y] := rows[y][..x] + src.rows[srcY][srcX..srcX + n] + rows[y][x + n..];
      }
    }
  }
}
