/**
 * The five shape classes of the drawing (PuntoFigura, LineaFigura,
 * CirculoFigura, PoligonoRegularFigura, PoligonoIrregularFigura) as one
 * datatype, one case per class; the interface they share becomes the case
 * split. Each case carries exactly the fields its constructor stores, and a
 * getter of the class is the destructor of the same name, so a getter always
 * returns what the constructor was given. Shapes are never validated: a
 * negative radius or fewer than three sides is stored as given.
 *
 * The drawing arithmetic of `dibujar` is here too: the coordinate arrays of
 * both polygons and the bounding box an oval is painted in.
 */
module Shapes {

  /** A colour channel, as `java.awt.Color` reports it. */
  type Channel = c: int | 0 <= c <= 255

  /** `java.awt.Color`: red, green and blue, plus an alpha that the SVG text never shows. */
  datatype Color = Color(red: Channel, green: Channel, blue: Channel, alpha: Channel)

  /** The controller's initial stroke and fill colours (`Color.BLACK`, `Color.WHITE`). */
  const Black := Color(0, 0, 0, 255)
  const White := Color(255, 255, 255, 255)

  /** A canvas point (`java.awt.Point`), in integer canvas coordinates. */
  datatype Point = Point(x: int, y: int)

  datatype Figura =
    | PuntoFigura(x: int, y: int, colorTrazo: Color)
    | LineaFigura(x1: int, y1: int, x2: int, y2: int, colorTrazo: Color)
    | CirculoFigura(centroX: int, centroY: int, radio: int,
                    colorTrazo: Color, colorRelleno: Color, relleno: bool)
    | PoligonoRegularFigura(centroX: int, centroY: int, radio: int, nLados: int, anguloInicio: real,
                            colorTrazo: Color, colorRelleno: Color, relleno: bool)
    | PoligonoIrregularFigura(vertices: seq<Point>,
                              colorTrazo: Color, colorRelleno: Color, relleno: bool)

  /**
   * The floating-point library the shapes call, which this model does not
   * compute: `pi` is `Math.PI`, `atan2(dy, dx)` is `Math.atan2`, and
   * `roundedPolar(r, a)` is the pair (`Math.round(r * Math.cos(a))`,
   * `Math.round(r * Math.sin(a))`).
   */
  datatype Trig = Trig(pi: real, atan2: (int, int) -> real, roundedPolar: (int, real) -> Point)

  /** What the real library guarantees for a zero radius: `Math.round(0 * cos a) == 0`, likewise for sin. */
  ghost predicate ZeroRadiusStaysPut(trig: Trig)
  {
    forall a :: trig.roundedPolar(0, a) == Point(0, 0)
  }

  /** The angle of vertex `i` of a regular polygon: the start angle plus `i` steps of 2π/n. */
  function VertexAngle(anguloInicio: real, nLados: int, i: int, trig: Trig): real
    requires nLados > 0
  {
    anguloInicio + (i as real) * (2.0 * trig.pi / (nLados as real))
  }

  /**
   * Vertex `i` of a regular polygon: the centre moved by the rounded polar
   * offset of the radius at the vertex's angle. `dibujar` and `toSVG` both
   * compute this same formula.
   */
  function RegularVertex(f: Figura, i: int, trig: Trig): (p: Point)
    requires f.PoligonoRegularFigura? && 0 <= i < f.nLados
    ensures f.radio == 0 && ZeroRadiusStaysPut(trig) ==> p == Point(f.centroX, f.centroY)
  {
    var offset := trig.roundedPolar(f.radio, VertexAngle(f.anguloInicio, f.nLados, i, trig));
    Point(f.centroX + offset.x, f.centroY + offset.y)
  }

  /** The vertices of a regular polygon in order; none when `nLados` is not positive. */
  function RegularVertices(f: Figura, trig: Trig): seq<Point>
    requires f.PoligonoRegularFigura?
  {
    var n := if f.nLados > 0 then f.nLados else 0;
    seq(n, i requires 0 <= i < n => RegularVertex(f, i, trig))
  }

  /**
   * A zero-radius regular polygon, the preview after the first click,
   * collapses every vertex onto its centre.
   */
  lemma {:induction false} ZeroRadiusCollapses(f: Figura, trig: Trig)
    requires f.PoligonoRegularFigura? && f.radio == 0 && ZeroRadiusStaysPut(trig)
    ensures forall p :: p in RegularVertices(f, trig) ==> p == Point(f.centroX, f.centroY)
  {
    var vs := RegularVertices(f, trig);
    forall p | p in vs
      ensures p == Point(f.centroX, f.centroY)
    {
      var i :| 0 <= i < |vs| && vs[i] == p;
      assert p == RegularVertex(f, i, trig);
    }
  }

  /** The rectangle handed to `fillOval`/`drawOval`. */
  datatype Box = Box(left: int, top: int, width: int, height: int)

  /**
   * The box an oval shape is painted in: a square centred on the shape's
   * centre whose side is the diameter (twice the radius; the point is a disc
   * of radius 3).
   */
  function OvalBox(f: Figura): (b: Box)
    requires f.PuntoFigura? || f.CirculoFigura?
    ensures b.width == b.height
    ensures f.CirculoFigura? ==>
      b.width == 2 * f.radio && 2 * b.left + b.width == 2 * f.centroX && 2 * b.top + b.height == 2 * f.centroY
    ensures f.PuntoFigura? ==>
      b.width == 6 && 2 * b.left + b.width == 2 * f.x && 2 * b.top + b.height == 2 * f.y
  {
    match f
    case PuntoFigura(x, y, _) =>
      var r := 3;
      Box(x - r, y - r, r * 2, r * 2)
    case CirculoFigura(cx, cy, radio, _, _, _) =>
      Box(cx - radio, cy - radio, radio * 2, radio * 2)
  }

  /** The coordinate arrays `dibujar` hands to `java.awt.Polygon` for an irregular polygon. */
  method IrregularDrawArrays(f: Figura) returns (xs: array<int>, ys: array<int>)
    requires f.PoligonoIrregularFigura?
    ensures fresh(xs) && fresh(ys)
    ensures xs.Length == ys.Length == |f.vertices|
    ensures forall i :: 0 <= i < |f.vertices| ==> Point(xs[i], ys[i]) == f.vertices[i]
  {
    var n := |f.vertices|;
    xs := new int[n];
    ys := new int[n];
    for i := 0 to n
      invariant forall k :: 0 <= k < i ==> Point(xs[k], ys[k]) == f.vertices[k]
    {
      var p := f.vertices[i];
      xs[i] := p.x;
      ys[i] := p.y;
    }
  }

  /**
   * The coordinate arrays `dibujar` hands to `java.awt.Polygon` for a regular
   * polygon. A negative side count makes Java's array allocation throw, so
   * it is excluded here.
   */
  method RegularDrawArrays(f: Figura, trig: Trig) returns (xs: array<int>, ys: array<int>)
    requires f.PoligonoRegularFigura? && f.nLados >= 0
    ensures fresh(xs) && fresh(ys)
    ensures xs.Length == ys.Length == |RegularVertices(f, trig)|
    ensures forall i :: 0 <= i < xs.Length ==> Point(xs[i], ys[i]) == RegularVertices(f, trig)[i]
  {
    xs := new int[f.nLados];
    ys := new int[f.nLados];
    for i := 0 to f.nLados
      invariant forall k :: 0 <= k < i ==> Point(xs[k], ys[k]) == RegularVertex(f, k, trig)
    {
      var ang := VertexAngle(f.anguloInicio, f.nLados, i, trig);
      var offset := trig.roundedPolar(f.radio, ang);
      xs[i] := f.centroX + offset.x;
      ys[i] := f.centroY + offset.y;
    }
  }
}
