/**
 * `MainController`: the handlers the main window's components call. Each
 * handler changes the controller's fields and the drawing exactly as the
 * matching `Construction` function changes a `Session`; the dialogs it opens
 * are replaced by parameters carrying their answers, and the combo, slider
 * and canvas of the window by the values the handlers read from or hand to
 * them.
 */
module Controller {
  import opened Wrappers
  import opened Text
  import opened Shapes
  import opened Geometry
  import opened Lienzo
  import opened Construction

  class MainController {
    /** The window's drawing, taken once when the controller is built. */
    const model: LienzoModel
    /** The item selected in the window's shape combo. */
    var modo: Tool
    var colorTrazo: Color
    var colorRelleno: Color
    var x0: int
    var y0: int
    var verticesTemp: seq<Point>
    var enModoDibujar: bool
    var figuraTemporal: Option<Figura>
    /** What the canvas was last asked to preview. */
    var preview: Preview

    /** The controller's state and the drawing, as one construction snapshot. */
    function Snapshot(): Session
      reads this, model
    {
      Session(model.GetFiguras(), modo, colorTrazo, colorRelleno, x0, y0, verticesTemp, enModoDibujar,
              figuraTemporal, preview)
    }

    /** Black stroke, white fill, nothing under way, over whatever the window's drawing holds. */
    constructor (lienzo: LienzoModel)
      ensures model == lienzo
      ensures Snapshot() == Start(lienzo.GetFiguras())
    {
      model := lienzo;
      modo := Punto;
      colorTrazo := Black;
      colorRelleno := White;
      x0, y0 := 0, 0;
      verticesTemp := [];
      enModoDibujar := false;
      figuraTemporal := None;
      preview := Hidden;
    }

    /** The shape combo's listener, once the selection is `seleccionado`. */
    method ComboFigurasCambiado(seleccionado: Tool)
      modifies this
      ensures Snapshot() == SeleccionarHerramienta(old(Snapshot()), seleccionado)
    {
      modo := seleccionado;
      if seleccionado != PolIrregular {
        verticesTemp := [];
        preview := Hidden;
        enModoDibujar := false;
      }
    }

    /** The stroke colour button; `elegido` is the chooser's answer, `None` when cancelled. */
    method ColorTrazoPulsado(elegido: Option<Color>)
      modifies this
      ensures Snapshot() == ElegirColorTrazo(old(Snapshot()), elegido)
    {
      if elegido.Some? {
        colorTrazo := elegido.value;
      }
    }

    /** The fill colour button; `elegido` is the chooser's answer, `None` when cancelled. */
    method ColorRellenoPulsado(elegido: Option<Color>)
      modifies this
      ensures Snapshot() == ElegirColorRelleno(old(Snapshot()), elegido)
    {
      if elegido.Some? {
        colorRelleno := elegido.value;
      }
    }

    /**
     * The finalise button. `aceptaCruce` is the answer to the confirmation
     * asked when the scan reports crossing edges; it is not consulted otherwise.
     */
    method FinalizarPoligonoPulsado(aceptaCruce: bool)
      modifies this, model
      ensures Snapshot() == FinalizarControlador(old(Snapshot()), aceptaCruce)
    {
      if |verticesTemp| < 3 {
        return;
      }
      var cruza := HayInterseccionEntreVertices(verticesTemp);
      if cruza && !aceptaCruce {
        verticesTemp := [];
        enModoDibujar := false;
        preview := Hidden;
        return;
      }
      var pIrr := PoligonoIrregularFigura(verticesTemp, colorTrazo, colorRelleno, true);
      model.AgregarFigura(Some(pIrr));
      verticesTemp := [];
      enModoDibujar := false;
      preview := Hidden;
    }

    /** A click on the canvas at (x, y), with the sides slider at `nL`. */
    method ManejarMouseClicked(x: int, y: int, nL: SliderValue, trig: Trig)
      modifies this, model
      ensures Snapshot() == Click(old(Snapshot()), x, y, nL, trig)
    {
      var cT, cR := colorTrazo, colorRelleno;
      var rell := FilledOnClick(modo);
      match modo {
        case Punto =>
          model.AgregarFigura(Some(PuntoFigura(x, y, cT)));
          preview := Hidden;
        case PolIrregular =>
          verticesTemp := verticesTemp + [Point(x, y)];
          if |verticesTemp| >= 2 {
            preview := LiveIrregular(cT, cR, rell);
          }
        case _ =>
          if !enModoDibujar {
            x0, y0 := x, y;
            enModoDibujar := true;
            var t := FirstClickShape(modo, x0, y0, cT, cR, rell, nL);
            figuraTemporal := Some(t);
            preview := Showing(t);
          } else {
            var f := DraggedShape(modo, x0, y0, x, y, cT, cR, rell, nL, trig);
            model.AgregarFigura(Some(f));
            enModoDibujar := false;
            preview := Hidden;
          }
      }
    }

    /** The pointer moving over the canvas to (x, y), with the sides slider at `nL`. */
    method ManejarMouseMoved(x: int, y: int, nL: SliderValue, trig: Trig)
      modifies this
      ensures Snapshot() == Move(old(Snapshot()), x, y, nL, trig)
    {
      if !enModoDibujar {
        return;
      }
      var rell := FilledOnMove(modo);
      if TwoClick(modo) {
        var t := DraggedShape(modo, x0, y0, x, y, colorTrazo, colorRelleno, rell, nL, trig);
        figuraTemporal := Some(t);
        preview := Showing(t);
      }
    }
  }

  // ------------------------------------------------------------- save name

  /** Why the save handler stops before touching the database. */
  datatype NameRejection = NothingToSave | Cancelled | EmptyName | InvalidCharacters

  /** The characters a drawing name may not contain: \ / : * ? " < > | */
  predicate IsForbidden(c: char)
  {
    c == '\\' || c == '/' || c == ':' || c == '*' || c == '?' || c == '"' || c == '<' || c == '>' || c == '|'
  }

  /** Whether the character-class search finds a forbidden character in `s`. */
  function HasForbidden(s: string): (b: bool)
    ensures b <==> exists i :: 0 <= i < |s| && IsForbidden(s[i])
  {
    if s == [] then false
    else if IsForbidden(s[0]) then true
    else
      assert forall i :: 1 <= i < |s| ==> s[i] == s[1..][i - 1];
      HasForbidden(s[1..])
  }

  /** A name the save handler goes on with: not empty and free of forbidden characters. */
  predicate Acceptable(nombre: string)
  {
    nombre != [] && forall i :: 0 <= i < |nombre| ==> !IsForbidden(nombre[i])
  }

  /**
   * The checks of the save handler before it stores anything: there must be
   * shapes, the name dialog must not be cancelled (`None`), and the typed
   * name, trimmed, must be acceptable. The name stored is the trimmed one.
   */
  function NombreParaGuardar(hayFiguras: bool, tecleado: Option<string>): (r: Result<string, NameRejection>)
    ensures r.Success? <==> hayFiguras && tecleado.Some? && Acceptable(Trim(tecleado.value))
    ensures r.Success? ==> r.value == Trim(tecleado.value) && !IsBlank(r.value[0]) && !IsBlank(r.value[|r.value| - 1])
    ensures r == Failure(NothingToSave) <==> !hayFiguras
    ensures r == Failure(Cancelled) <==> hayFiguras && tecleado.None?
    ensures r == Failure(EmptyName) <==> hayFiguras && tecleado.Some? && Trim(tecleado.value) == []
  {
    if !hayFiguras then Failure(NothingToSave)
    else if tecleado.None? then Failure(Cancelled)
    else
      var nombre := Trim(tecleado.value);
      if nombre == [] then Failure(EmptyName)
      else if HasForbidden(nombre) then Failure(InvalidCharacters)
      else Success(nombre)
  }

  /** Typing an accepted name back in is accepted again, unchanged. */
  lemma AcceptedNameIsStable(hayFiguras: bool, tecleado: Option<string>)
    requires NombreParaGuardar(hayFiguras, tecleado).Success?
    ensures var n := NombreParaGuardar(hayFiguras, tecleado).value;
      NombreParaGuardar(true, Some(n)) == Success(n)
  {
    TrimIdempotent(tecleado.value);
  }
}
