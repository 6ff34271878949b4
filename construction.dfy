/**
 * The interactive construction of shapes, as a pure state machine. Both the
 * controller and the older standalone frame keep the same construction state
 * (the anchor `x0, y0`, the clicked vertices `verticesTemp`, the flag
 * `enModoDibujar`, the preview `figuraTemporal`) next to the drawing, the
 * selected tool and the two colours, and their mouse, tool and colour
 * handlers change it in the same way; they differ only in what "finalise
 * irregular polygon" does with a chain whose edges cross. A `Session` is one
 * snapshot of that state, and each handler is a function from the snapshot
 * before to the snapshot after.
 */
module Construction {
  import opened Wrappers
  import opened Shapes
  import opened Geometry

  // ------------------------------------------------------------------ radius

  /**
   * `r` is `Math.round(Math.sqrt(d))` computed exactly: r - 1/2 <= √d < r + 1/2,
   * squared and scaled by 4 to stay in whole numbers.
   */
  predicate IsRoundedRoot(d: nat, r: nat)
  {
    (r == 0 || (2 * r - 1) * (2 * r - 1) <= 4 * d) && 4 * d < (2 * r + 1) * (2 * r + 1)
  }

  lemma SquareAtLeast(k: nat)
    ensures k <= k * k
  {
    if k > 0 {
      assert k * k == k * (k - 1) + k;
    }
  }

  lemma SquareMonotone(a: nat, b: nat)
    requires a <= b
    ensures a * a <= b * b
  {
    assert b * b - a * a == (b - a) * (b + a);
  }

  /** Counts `r` up from a value already known to be low enough. */
  function RoundSqrtFrom(d: nat, r: nat): (s: nat)
    requires r == 0 || (2 * r - 1) * (2 * r - 1) <= 4 * d
    ensures IsRoundedRoot(d, s)
    decreases 4 * d + 2 - 2 * r
  {
    SquareAtLeast(2 * r + 1);
    if (2 * r + 1) * (2 * r + 1) <= 4 * d then RoundSqrtFrom(d, r + 1) else r
  }

  /** There is only one rounded root. */
  lemma RoundedRootUnique(d: nat, r: nat, s: nat)
    requires IsRoundedRoot(d, r) && IsRoundedRoot(d, s)
    ensures r == s
  {
    if r < s {
      SquareMonotone(2 * r + 1, 2 * s - 1);
    } else if s < r {
      SquareMonotone(2 * s + 1, 2 * r - 1);
    }
  }

  /**
   * The radius `(int) Math.round(Math.hypot(dx, dy))`, with the square root
   * and the rounding taken exactly instead of in floating point.
   */
  function RoundHypot(dx: int, dy: int): (r: nat)
    ensures IsRoundedRoot(dx * dx + dy * dy, r)
  {
    RoundSqrtFrom(dx * dx + dy * dy, 0)
  }

  /** The rounded root of a perfect square is its root. */
  lemma RootOfSquare(a: nat)
    ensures IsRoundedRoot(a * a, a)
  {
    assert (2 * a + 1) * (2 * a + 1) == 4 * (a * a) + 4 * a + 1;
    if a > 0 {
      assert (2 * a - 1) * (2 * a - 1) == 4 * (a * a) - 4 * a + 1;
    }
  }

  /** A drag along an axis gives a radius equal to the length of the drag. */
  lemma RoundHypotAlongAxis(dx: int, dy: int)
    requires dx == 0 || dy == 0
    ensures RoundHypot(dx, dy) == (if dx < 0 then -dx else dx) + (if dy < 0 then -dy else dy)
  {
    var a: nat := (if dx < 0 then -dx else dx) + (if dy < 0 then -dy else dy);
    if dx == 0 {
      assert dx * dx + dy * dy == a * a;
    } else {
      assert dx * dx + dy * dy == a * a;
    }
    RootOfSquare(a);
    RoundedRootUnique(a * a, a, RoundHypot(dx, dy));
  }


  // ------------------------------------------------------------------- state

  /** The items of the shape combo, in the order it lists them. */
  datatype Tool = Punto | Linea | Circunferencia | PolRegular | PolIrregular

  /** The tools that take an anchor click and a second, committing click. */
  predicate TwoClick(t: Tool)
  {
    t == Linea || t == Circunferencia || t == PolRegular
  }

  /** The sides slider: from 3 to 12, starting at 5. */
  type SliderValue = n: int | 3 <= n <= 12 witness 5

  /**
   * What the canvas was last asked to preview: nothing, a fixed shape, or
   * the irregular polygon built over `verticesTemp` itself, which therefore
   * shows every vertex added afterwards.
   */
  datatype Preview =
    | Hidden
    | Showing(figura: Figura)
    | LiveIrregular(colorTrazo: Color, colorRelleno: Color, relleno: bool)

  datatype Session = Session(
    drawing: seq<Figura>,
    modo: Tool,
    colorTrazo: Color,
    colorRelleno: Color,
    x0: int,
    y0: int,
    verticesTemp: seq<Point>,
    enModoDibujar: bool,
    figuraTemporal: Option<Figura>,
    preview: Preview)

  /**
   * The state a handler set starts in over a drawing: the first combo item,
   * black stroke, white fill, no construction under way.
   */
  function Start(drawing: seq<Figura>): Session
  {
    Session(drawing, Punto, Black, White, 0, 0, [], false, None, Hidden)
  }

  // ---------------------------------------------------------------- handlers

  /** Whether the shapes a click makes are filled. */
  predicate FilledOnClick(t: Tool)
  {
    t == PolRegular || t == PolIrregular || t == Circunferencia
  }

  /** Whether the shapes a move previews are filled. */
  predicate FilledOnMove(t: Tool)
  {
    t == PolRegular || t == Circunferencia
  }

  /** The degenerate preview a two-click tool shows right after its anchor click at (x, y). */
  function FirstClickShape(t: Tool, x: int, y: int, cT: Color, cR: Color, rell: bool, nL: SliderValue): Figura
    requires TwoClick(t)
  {
    match t
    case Linea => LineaFigura(x, y, x, y, cT)
    case Circunferencia => CirculoFigura(x, y, 0, cT, cR, rell)
    case PolRegular => PoligonoRegularFigura(x, y, 0, nL, 0.0, cT, cR, rell)
  }

  /**
   * The shape a two-click tool spans from the anchor (x0, y0) to (x, y): the
   * line between them, or the circle or regular polygon centred on the
   * anchor through (x, y).
   */
  function DraggedShape(t: Tool, x0: int, y0: int, x: int, y: int, cT: Color, cR: Color, rell: bool,
                        nL: SliderValue, trig: Trig): Figura
    requires TwoClick(t)
  {
    var dx, dy := x - x0, y - y0;
    match t
    case Linea => LineaFigura(x0, y0, x, y, cT)
    case Circunferencia => CirculoFigura(x0, y0, RoundHypot(dx, dy), cT, cR, rell)
    case PolRegular => PoligonoRegularFigura(x0, y0, RoundHypot(dx, dy), nL, trig.atan2(dy, dx), cT, cR, rell)
  }

  /** `manejarMouseClicked(x, y)`, with the slider at `nL`. */
  function Click(s: Session, x: int, y: int, nL: SliderValue, trig: Trig): (r: Session)
    ensures r.modo == s.modo && r.colorTrazo == s.colorTrazo && r.colorRelleno == s.colorRelleno
    ensures s.drawing <= r.drawing && |r.drawing| <= |s.drawing| + 1
    ensures |r.drawing| == |s.drawing| + 1 <==> s.modo == Punto || (s.modo != PolIrregular && s.enModoDibujar)
  {
    var rell := FilledOnClick(s.modo);
    match s.modo
    case Punto =>
      s.(drawing := s.drawing + [PuntoFigura(x, y, s.colorTrazo)], preview := Hidden)
    case PolIrregular =>
      var vs := s.verticesTemp + [Point(x, y)];
      s.(verticesTemp := vs,
         preview := if |vs| >= 2 then LiveIrregular(s.colorTrazo, s.colorRelleno, rell) else s.preview)
    case _ =>
      if !s.enModoDibujar then
        var t := FirstClickShape(s.modo, x, y, s.colorTrazo, s.colorRelleno, rell, nL);
        s.(x0 := x, y0 := y, enModoDibujar := true, figuraTemporal := Some(t), preview := Showing(t))
      else
        var f := DraggedShape(s.modo, s.x0, s.y0, x, y, s.colorTrazo, s.colorRelleno, rell, nL, trig);
        s.(drawing := s.drawing + [f], enModoDibujar := false, preview := Hidden)
  }

  /**
   * `manejarMouseMoved(x, y)`: ignored unless a two-click shape is under way;
   * otherwise it replaces the preview and nothing else.
   */
  function Move(s: Session, x: int, y: int, nL: SliderValue, trig: Trig): (r: Session)
    ensures !s.enModoDibujar ==> r == s
    ensures r.(figuraTemporal := s.figuraTemporal, preview := s.preview) == s
  {
    if !s.enModoDibujar then s
    else if TwoClick(s.modo) then
      var t := DraggedShape(s.modo, s.x0, s.y0, x, y, s.colorTrazo, s.colorRelleno, FilledOnMove(s.modo), nL, trig);
      s.(figuraTemporal := Some(t), preview := Showing(t))
    else s
  }

  /**
   * The combo listener, after the selection became `t`: any tool but the
   * irregular polygon abandons the vertices and the shape under way.
   */
  function SeleccionarHerramienta(s: Session, t: Tool): (r: Session)
    ensures r.modo == t && r.drawing == s.drawing
    ensures t != PolIrregular ==> r.verticesTemp == [] && !r.enModoDibujar && r.preview == Hidden
    ensures t != PolIrregular ==>
      r.(modo := s.modo, verticesTemp := s.verticesTemp, enModoDibujar := s.enModoDibujar, preview := s.preview) == s
    ensures t == PolIrregular ==> r == s.(modo := t)
  {
    if t != PolIrregular then
      s.(modo := t, verticesTemp := [], enModoDibujar := false, preview := Hidden)
    else
      s.(modo := t)
  }

  /** The stroke colour button; `None` is a cancelled chooser, which keeps the colour. */
  function ElegirColorTrazo(s: Session, elegido: Option<Color>): (r: Session)
    ensures r.(colorTrazo := s.colorTrazo) == s
    ensures elegido.Some? ==> r.colorTrazo == elegido.value
    ensures elegido.None? ==> r == s
  {
    if elegido.Some? then s.(colorTrazo := elegido.value) else s
  }

  /** The fill colour button; `None` is a cancelled chooser, which keeps the colour. */
  function ElegirColorRelleno(s: Session, elegido: Option<Color>): (r: Session)
    ensures r.(colorRelleno := s.colorRelleno) == s
    ensures elegido.Some? ==> r.colorRelleno == elegido.value
    ensures elegido.None? ==> r == s
  {
    if elegido.Some? then s.(colorRelleno := elegido.value) else s
  }

  /** The polygon a finalise stores: the vertices so far, the current colours, filled. */
  function PoligonoFinal(s: Session): Figura
  {
    PoligonoIrregularFigura(s.verticesTemp, s.colorTrazo, s.colorRelleno, true)
  }

  /** Storing the polygon and starting over. */
  function Commit(s: Session): Session
  {
    s.(drawing := s.drawing + [PoligonoFinal(s)], verticesTemp := [], enModoDibujar := false, preview := Hidden)
  }

  /** Starting over without storing anything. */
  function Discard(s: Session): Session
  {
    s.(verticesTemp := [], enModoDibujar := false, preview := Hidden)
  }

  /**
   * The controller's finalise: fewer than three vertices only shows a
   * message; a crossing chain is stored only if the user confirms
   * (`aceptaCruce`), and discarded otherwise.
   */
  function FinalizarControlador(s: Session, aceptaCruce: bool): (r: Session)
    ensures |s.verticesTemp| < 3 ==> r == s
    ensures |s.verticesTemp| >= 3 ==> r.verticesTemp == [] && !r.enModoDibujar && r.preview == Hidden
    ensures (r.drawing == s.drawing + [PoligonoIrregularFigura(s.verticesTemp, s.colorTrazo, s.colorRelleno, true)]) <==>
              |s.verticesTemp| >= 3 && (aceptaCruce || !ChainSelfCrosses(s.verticesTemp))
  {
    if |s.verticesTemp| < 3 then s
    else if ChainSelfCrosses(s.verticesTemp) && !aceptaCruce then Discard(s)
    else Commit(s)
  }

  /**
   * The standalone frame's finalise: fewer than three vertices, or a crossing
   * chain, only shows a message and leaves everything as it was.
   */
  function FinalizarMarco(s: Session): (r: Session)
    ensures r != s ==> |s.verticesTemp| >= 3 && !ChainSelfCrosses(s.verticesTemp)
    ensures r.drawing != s.drawing <==> |s.verticesTemp| >= 3 && !ChainSelfCrosses(s.verticesTemp)
  {
    if |s.verticesTemp| < 3 || ChainSelfCrosses(s.verticesTemp) then s
    else Commit(s)
  }

  // ---------------------------------------------------------- event sequences

  /** The two handler sets: the controller's, and the standalone frame's own copy. */
  datatype Variant = Controlador | Marco

  /** What the user does; dialog answers and the slider position travel with the event. */
  datatype Event =
    | Clicked(x: int, y: int, lados: SliderValue)
    | Moved(x: int, y: int, lados: SliderValue)
    | ToolChosen(tool: Tool)
    | StrokeChosen(stroke: Option<Color>)
    | FillChosen(fill: Option<Color>)
    | FinalizePressed(aceptaCruce: bool)

  function Step(v: Variant, s: Session, e: Event, trig: Trig): Session
  {
    match e
    case Clicked(x, y, nL) => Click(s, x, y, nL, trig)
    case Moved(x, y, nL) => Move(s, x, y, nL, trig)
    case ToolChosen(t) => SeleccionarHerramienta(s, t)
    case StrokeChosen(c) => ElegirColorTrazo(s, c)
    case FillChosen(c) => ElegirColorRelleno(s, c)
    case FinalizePressed(ok) => if v == Controlador then FinalizarControlador(s, ok) else FinalizarMarco(s)
  }

  function Run(v: Variant, s: Session, es: seq<Event>, trig: Trig): Session
    decreases |es|
  {
    if es == [] then s else Run(v, Step(v, s, es[0], trig), es[1..], trig)
  }

  // -------------------------------------------------------------- invariant

  /** The tool whose two clicks make shapes of `f`'s class. */
  predicate MadeBy(f: Figura, t: Tool)
  {
    (t == Linea && f.LineaFigura?) || (t == Circunferencia && f.CirculoFigura?)
      || (t == PolRegular && f.PoligonoRegularFigura?)
  }

  /** `f` starts at (x, y) (a line) or is centred there (a circle or regular polygon). */
  predicate AnchoredAt(f: Figura, x: int, y: int)
  {
    match f
    case LineaFigura(x1, y1, _, _, _) => x1 == x && y1 == y
    case CirculoFigura(cx, cy, _, _, _, _) => cx == x && cy == y
    case PoligonoRegularFigura(cx, cy, _, _, _, _, _, _) => cx == x && cy == y
    case _ => false
  }

  /**
   * What every reachable state satisfies: vertices are only pending under the
   * irregular tool; a shape under way has a preview anchored at (x0, y0),
   * and unless the irregular tool was chosen since, that preview is of the
   * selected tool's class and is what the canvas shows; the live polygon
   * preview only appears once there are two vertices.
   */
  predicate Inv(s: Session)
  {
    && (s.verticesTemp != [] ==> s.modo == PolIrregular)
    && (s.enModoDibujar ==> s.modo != Punto && s.figuraTemporal.Some? && AnchoredAt(s.figuraTemporal.value, s.x0, s.y0))
    && (s.enModoDibujar && s.modo != PolIrregular ==>
          s.figuraTemporal.Some? && MadeBy(s.figuraTemporal.value, s.modo) && s.preview == Showing(s.figuraTemporal.value))
    && (s.preview.LiveIrregular? ==> |s.verticesTemp| >= 2)
  }

  lemma StartInv(drawing: seq<Figura>)
    ensures Inv(Start(drawing))
  {
  }

  lemma ClickPreservesInv(s: Session, x: int, y: int, nL: SliderValue, trig: Trig)
    requires Inv(s)
    ensures Inv(Click(s, x, y, nL, trig))
  {
    var r := Click(s, x, y, nL, trig);
    if s.modo == PolIrregular {
      assert r.preview.LiveIrregular? ==> |r.verticesTemp| >= 2;
    } else if TwoClick(s.modo) && !s.enModoDibujar {
      var t := FirstClickShape(s.modo, x, y, s.colorTrazo, s.colorRelleno, FilledOnClick(s.modo), nL);
      assert r.figuraTemporal == Some(t) && AnchoredAt(t, x, y) && MadeBy(t, s.modo);
    }
  }

  lemma MovePreservesInv(s: Session, x: int, y: int, nL: SliderValue, trig: Trig)
    requires Inv(s)
    ensures Inv(Move(s, x, y, nL, trig))
  {
    if s.enModoDibujar && TwoClick(s.modo) {
      var t := DraggedShape(s.modo, s.x0, s.y0, x, y, s.colorTrazo, s.colorRelleno, FilledOnMove(s.modo), nL, trig);
      assert AnchoredAt(t, s.x0, s.y0) && MadeBy(t, s.modo);
    }
  }

  lemma StepPreservesInv(v: Variant, s: Session, e: Event, trig: Trig)
    requires Inv(s)
    ensures Inv(Step(v, s, e, trig))
  {
    match e
    case Clicked(x, y, nL) => ClickPreservesInv(s, x, y, nL, trig);
    case Moved(x, y, nL) => MovePreservesInv(s, x, y, nL, trig);
    case _ =>
  }

  /** Every state reached from the start by any events satisfies the invariant. */
  lemma {:induction false} RunPreservesInv(v: Variant, s: Session, es: seq<Event>, trig: Trig)
    requires Inv(s)
    ensures Inv(Run(v, s, es, trig))
    decreases |es|
  {
    if es != [] {
      StepPreservesInv(v, s, es[0], trig);
      RunPreservesInv(v, Step(v, s, es[0], trig), es[1..], trig);
    }
  }

  // ----------------------------------------------------------- the drawing

  /** One event adds at most one shape, at the end, and never changes or reorders the others. */
  lemma StepAddsAtMostOne(v: Variant, s: Session, e: Event, trig: Trig)
    ensures s.drawing <= Step(v, s, e, trig).drawing
    ensures |Step(v, s, e, trig).drawing| <= |s.drawing| + 1
  {
  }

  /** The drawing only grows: over any events, the old drawing stays its prefix. */
  lemma {:induction false} RunExtendsDrawing(v: Variant, s: Session, es: seq<Event>, trig: Trig)
    ensures s.drawing <= Run(v, s, es, trig).drawing
    ensures |Run(v, s, es, trig).drawing| <= |s.drawing| + |es|
    decreases |es|
  {
    if es != [] {
      var s' := Step(v, s, es[0], trig);
      StepAddsAtMostOne(v, s, es[0], trig);
      RunExtendsDrawing(v, s', es[1..], trig);
    }
  }

  // ------------------------------------------------------------ the tools

  /** A point click stores exactly one point in the stroke colour and leaves the construction alone. */
  lemma PuntoClick(s: Session, x: int, y: int, nL: SliderValue, trig: Trig)
    requires s.modo == Punto
    ensures var r := Click(s, x, y, nL, trig);
      && r.drawing == s.drawing + [PuntoFigura(x, y, s.colorTrazo)]
      && r.enModoDibujar == s.enModoDibujar && r.x0 == s.x0 && r.y0 == s.y0
      && r.verticesTemp == s.verticesTemp
  {
  }

  /**
   * An irregular-polygon click adds one vertex and stores nothing; the live
   * preview appears once there are two vertices.
   */
  lemma IrregularClick(s: Session, x: int, y: int, nL: SliderValue, trig: Trig)
    requires s.modo == PolIrregular
    ensures var r := Click(s, x, y, nL, trig);
      && r.drawing == s.drawing
      && r.verticesTemp == s.verticesTemp + [Point(x, y)]
      && r.enModoDibujar == s.enModoDibujar
      && (|r.verticesTemp| >= 2 ==> r.preview == LiveIrregular(s.colorTrazo, s.colorRelleno, true))
      && (|r.verticesTemp| < 2 ==> r.preview == s.preview)
  {
  }

  /** One pointer move: where the pointer is and what the sides slider reads. */
  datatype Hover = Hover(x: int, y: int, lados: SliderValue)

  /** The moves `hs`, one after another. */
  function MoveAll(s: Session, hs: seq<Hover>, trig: Trig): Session
    decreases |hs|
  {
    if hs == [] then s else MoveAll(Move(s, hs[0].x, hs[0].y, hs[0].lados, trig), hs[1..], trig)
  }

  /** Any number of moves, whatever the slider reads at each, changes the preview and nothing else. */
  lemma {:induction false} MovesOnlyPreview(s: Session, hs: seq<Hover>, trig: Trig)
    ensures MoveAll(s, hs, trig).(figuraTemporal := s.figuraTemporal, preview := s.preview) == s
    decreases |hs|
  {
    if hs != [] {
      var s' := Move(s, hs[0].x, hs[0].y, hs[0].lados, trig);
      MovesOnlyPreview(s', hs[1..], trig);
    }
  }

  /**
   * A two-click tool: the first click stores nothing and anchors the shape;
   * after any moves, the second click stores exactly the shape spanned from
   * the first click's point to its own, with the sides the slider shows at
   * that second click, and ends the construction.
   */
  lemma TwoClickCommit(s: Session, x1: int, y1: int, nL1: SliderValue, hs: seq<Hover>,
                       x2: int, y2: int, nL2: SliderValue, trig: Trig)
    requires TwoClick(s.modo) && !s.enModoDibujar
    ensures var s1 := Click(s, x1, y1, nL1, trig);
      && s1.drawing == s.drawing && s1.enModoDibujar && s1.x0 == x1 && s1.y0 == y1
    ensures var s2 := Click(MoveAll(Click(s, x1, y1, nL1, trig), hs, trig), x2, y2, nL2, trig);
      && s2.drawing == s.drawing + [DraggedShape(s.modo, x1, y1, x2, y2, s.colorTrazo, s.colorRelleno,
                                                 FilledOnClick(s.modo), nL2, trig)]
      && !s2.enModoDibujar && s2.preview == Hidden
  {
    MovesOnlyPreview(Click(s, x1, y1, nL1, trig), hs, trig);
  }

  /**
   * What a move previews is what a click at the same point stores: the
   * preview of a two-click shape is exact.
   */
  lemma PreviewMatchesCommit(s: Session, x: int, y: int, nL: SliderValue, trig: Trig)
    requires TwoClick(s.modo) && s.enModoDibujar
    ensures Move(s, x, y, nL, trig).figuraTemporal == Some(Click(s, x, y, nL, trig).drawing[|s.drawing|])
  {
  }

  /** The anchor click of a line or circle previews the zero-length drag from the anchor. */
  lemma FirstClickIsZeroDrag(t: Tool, x: int, y: int, cT: Color, cR: Color, rell: bool, nL: SliderValue, trig: Trig)
    requires t == Linea || t == Circunferencia
    ensures FirstClickShape(t, x, y, cT, cR, rell, nL) == DraggedShape(t, x, y, x, y, cT, cR, rell, nL, trig)
  {
    RoundHypotAlongAxis(0, 0);
  }

  // --------------------------------------------------------- finalising

  /** With fewer than three vertices, finalising changes nothing, in either variant. */
  lemma FinalizarTooFew(s: Session, aceptaCruce: bool)
    requires |s.verticesTemp| < 3
    ensures FinalizarControlador(s, aceptaCruce) == s && FinalizarMarco(s) == s
  {
  }

  /** The controller, on a crossing chain the user declines: nothing stored, the chain dropped. */
  lemma ControladorDeclined(s: Session)
    requires |s.verticesTemp| >= 3 && ChainSelfCrosses(s.verticesTemp)
    ensures var r := FinalizarControlador(s, false);
      r.drawing == s.drawing && r.verticesTemp == [] && !r.enModoDibujar && r.preview == Hidden
  {
  }

  /**
   * The controller, on a chain without a detected crossing or one the user
   * accepts: exactly one filled polygon in the current colours, holding the
   * vertices as they were, is stored; the chain is then emptied, which does
   * not change the stored copy.
   */
  lemma ControladorAccepted(s: Session, aceptaCruce: bool)
    requires |s.verticesTemp| >= 3 && (aceptaCruce || !ChainSelfCrosses(s.verticesTemp))
    ensures var r := FinalizarControlador(s, aceptaCruce);
      && r.drawing == s.drawing + [PoligonoIrregularFigura(s.verticesTemp, s.colorTrazo, s.colorRelleno, true)]
      && r.verticesTemp == [] && !r.enModoDibujar && r.preview == Hidden
      && r.drawing[|s.drawing|].vertices == s.verticesTemp
  {
  }

  /** The frame rejects a crossing chain outright: nothing stored, nothing reset. */
  lemma MarcoRejectsCrossing(s: Session)
    requires ChainSelfCrosses(s.verticesTemp)
    ensures FinalizarMarco(s) == s
  {
  }

  /** The frame, on a chain of three or more vertices without a detected crossing: exactly one polygon stored. */
  lemma MarcoAccepts(s: Session)
    requires |s.verticesTemp| >= 3 && !ChainSelfCrosses(s.verticesTemp)
    ensures var r := FinalizarMarco(s);
      && r.drawing == s.drawing + [PoligonoIrregularFigura(s.verticesTemp, s.colorTrazo, s.colorRelleno, true)]
      && r.verticesTemp == [] && !r.enModoDibujar && r.preview == Hidden
  {
  }

  /** The two variants disagree only on chains with a detected crossing. */
  lemma VariantsAgreeWithoutCrossing(s: Session, aceptaCruce: bool)
    requires !ChainSelfCrosses(s.verticesTemp)
    ensures FinalizarControlador(s, aceptaCruce) == FinalizarMarco(s)
  {
  }

  /** Every irregular polygon in `drawing` has three or more vertices and passes the crossing scan. */
  predicate PolygonsPassScan(drawing: seq<Figura>)
  {
    forall i :: 0 <= i < |drawing| && drawing[i].PoligonoIrregularFigura? ==>
      |drawing[i].vertices| >= 3 && !ChainSelfCrosses(drawing[i].vertices)
  }

  lemma MarcoStepPassesScan(s: Session, e: Event, trig: Trig)
    requires PolygonsPassScan(s.drawing)
    ensures PolygonsPassScan(Step(Marco, s, e, trig).drawing)
  {
    var r := Step(Marco, s, e, trig);
    StepAddsAtMostOne(Marco, s, e, trig);
    forall i | 0 <= i < |r.drawing| && r.drawing[i].PoligonoIrregularFigura?
      ensures |r.drawing[i].vertices| >= 3 && !ChainSelfCrosses(r.drawing[i].vertices)
    {
      if i < |s.drawing| {
        assert r.drawing[i] == s.drawing[i];
      }
    }
  }

  /** The frame never stores an irregular polygon the scan would flag, nor one of fewer than three vertices. */
  lemma {:induction false} MarcoRunPassesScan(s: Session, es: seq<Event>, trig: Trig)
    requires PolygonsPassScan(s.drawing)
    ensures PolygonsPassScan(Run(Marco, s, es, trig).drawing)
    decreases |es|
  {
    if es != [] {
      MarcoStepPassesScan(s, es[0], trig);
      MarcoRunPassesScan(Step(Marco, s, es[0], trig), es[1..], trig);
    }
  }

  /** The controller, by contrast, stores a flagged chain when the user confirms it. */
  lemma ControladorCanStoreCrossing(s: Session)
    requires |s.verticesTemp| >= 3 && ChainSelfCrosses(s.verticesTemp)
    ensures !PolygonsPassScan(FinalizarControlador(s, true).drawing)
  {
    var r := FinalizarControlador(s, true);
    assert r.drawing[|s.drawing|] == PoligonoFinal(s);
  }
}
