/**
 * `MainFrame`, the standalone window of the second part: it keeps its own
 * drawing and its own copy of the construction handlers, which change its
 * fields exactly as the matching `Construction` functions change a
 * `Session`. It differs from the controller only in finalising: a chain
 * whose edges cross is refused outright, with no question asked.
 */
module Frame {
  import opened Wrappers
  import opened Shapes
  import opened Geometry
  import opened Lienzo
  import opened Construction

  class MainFrame {
    /** The frame's own drawing, created with the frame and never replaced. */
    const lienzoModel: LienzoModel
    /** The item selected in the frame's shape combo. */
    var modo: Tool
    var colorTrazo: Color
    var colorRelleno: Color
    var x0: int
    var y0: int
    var verticesTemp: seq<Point>
    var enModoDibujar: bool
    var figuraTemporal: Option<Figura>
    /** What the canvas was last asked to preview. */
    var preview: Preview

    /** The frame's state and its drawing, as one construction snapshot. */
    function Snapshot(): Session
      reads this, lienzoModel
    {
      Session(lienzoModel.GetFiguras(), modo, colorTrazo, colorRelleno, x0, y0, verticesTemp, enModoDibujar,
              figuraTemporal, preview)
    }

    /** A new frame: an empty drawing of its own, black stroke, white fill, nothing under way. */
    constructor ()
      ensures fresh(lienzoModel)
      ensures Snapshot() == Start([])
    {
      lienzoModel := new LienzoModel();
      modo := Punto;
      colorTrazo := Black;
      colorRelleno := White;
      x0, y0 := 0, 0;
      verticesTemp := [];
      enModoDibujar := false;
      figuraTemporal := None;
      preview := Hidden;
    }

    /** The shape combo's listener, once the selection is `seleccionado`. */
    method ComboFigurasCambiado(seleccionado: Tool)
      modifies this
      ensures Snapshot() == SeleccionarHerramienta(old(Snapshot()), seleccionado)
    {
      modo := seleccionado;
      if seleccionado != PolIrregular {
        verticesTemp := [];
        preview := Hidden;
        enModoDibujar := false;
      }
    }

    /** The stroke colour button; `elegido` is the chooser's answer, `None` when cancelled. */
    method ColorTrazoPulsado(elegido: Option<Color>)
      modifies this
      ensures Snapshot() == ElegirColorTrazo(old(Snapshot()), elegido)
    {
      if elegido.Some? {
        colorTrazo := elegido.value;
      }
    }

    /** The fill colour button; `elegido` is the chooser's answer, `None` when cancelled. */
    method ColorRellenoPulsado(elegido: Option<Color>)
      modifies this
      ensures Snapshot() == ElegirColorRelleno(old(Snapshot()), elegido)
    {
      if elegido.Some? {
        colorRelleno := elegido.value;
      }
    }

    /**
     * The finalise button: too few vertices, or crossing edges, only show a
     * message; otherwise the polygon is stored and the chain emptied.
     */
    method FinalizarPoligonoPulsado()
      modifies this, lienzoModel
      ensures Snapshot() == FinalizarMarco(old(Snapshot()))
    {
      if |verticesTemp| < 3 {
        return;
      }
      var cruza := HayInterseccionEntreVertices(verticesTemp);
      if cruza {
        return;
      }
      var pIrr := PoligonoIrregularFigura(verticesTemp, colorTrazo, colorRelleno, true);
      lienzoModel.AgregarFigura(Some(pIrr));
      verticesTemp := [];
      enModoDibujar := false;
      preview := Hidden;
    }

    /** A click on the canvas at (x, y), with the sides slider at `nL`. */
    method ManejarMouseClicked(x: int, y: int, nL: SliderValue, trig: Trig)
      modifies this, lienzoModel
      ensures Snapshot() == Click(old(Snapshot()), x, y, nL, trig)
    {
      var cT, cR := colorTrazo, colorRelleno;
      var rell := FilledOnClick(modo);
      match modo {
        case Punto =>
          lienzoModel.AgregarFigura(Some(PuntoFigura(x, y, cT)));
          preview := Hidden;
        case PolIrregular =>
          verticesTemp := verticesTemp + [Point(x, y)];
          if |verticesTemp| >= 2 {
            preview := LiveIrregular(cT, cR, rell);
          }
        case _ =>
          if !enModoDibujar {
            x0, y0 := x, y;
            enModoDibujar := true;
            var t := FirstClickShape(modo, x0, y0, cT, cR, rell, nL);
            figuraTemporal := Some(t);
            preview := Showing(t);
          } else {
            var f := DraggedShape(modo, x0, y0, x, y, cT, cR, rell, nL, trig);
            lienzoModel.AgregarFigura(Some(f));
            enModoDibujar := false;
            preview := Hidden;
          }
      }
    }

    /** The pointer moving over the canvas to (x, y), with the sides slider at `nL`. */
    method ManejarMouseMoved(x: int, y: int, nL: SliderValue, trig: Trig)
      modifies this
      ensures Snapshot() == Move(old(Snapshot()), x, y, nL, trig)
    {
      if !enModoDibujar {
        return;
      }
      var rell := FilledOnMove(modo);
      if TwoClick(modo) {
        var t := DraggedShape(modo, x0, y0, x, y, colorTrazo, colorRelleno, rell, nL, trig);
        figuraTemporal := Some(t);
        preview := Showing(t);
      }
    }
  }
}
