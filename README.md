# Swing paint: shapes, drawing and interactive construction, in Dafny

The application is a small paint program. The user picks a tool in a combo
box (point, line, circle, regular polygon, irregular polygon), picks stroke
and fill colours, and clicks on a canvas. Finished shapes are appended to an
in-memory drawing (`LienzoModel`). Each shape prints itself as one SVG
element. Two handler sets drive the construction:

- the controller (`MainController`);
- an older standalone window (`MainFrame`) that keeps its own copy of the
  same handlers.

They differ only in how "finalise irregular polygon" treats a chain whose
edges cross. The controller asks the user. The frame refuses.

This project models that core and proves properties of it.

- `wrappers.dfy` (module `Wrappers`): `Option` (Java's `null`) and `Result`.
- `text.dfy` (module `Text`): `%d` numerals and reading them back, `String.trim()`, splitting.
- `shapes.dfy` (module `Shapes`): the five shape classes as one datatype; colours, points; the drawing arithmetic (vertex arrays, oval box).
- `svg.dfy` (module `Svg`): `toSVG` of every shape, as a specification function and as the looping method; a reader for the text and what it reads back for each shape.
- `geometry.dfy` (module `Geometry`): `segmentosSeIntersectan`, `hayInterseccionEntreVertices`, their meaning and their gaps.
- `lienzo.dfy` (module `Lienzo`): the class `LienzoModel`.
- `construction.dfy` (module `Construction`): the construction state (`Session`) and every handler as a function on it; the invariant, the drawing-growth lemmas and the per-tool lemmas.
- `controller.dfy` (module `Controller`): the class `MainController`, whose handlers are proved equal to the `Construction` functions; the save-name check.
- `frame.dfy` (module `Frame`): the class `MainFrame`, likewise, with the frame's own finalise.

Modelling choices:

- **Shapes are values.** A getter is the datatype destructor of the same
  name, so every getter returns its constructor argument. Nothing is
  validated: a negative radius or fewer than three sides is stored as given.
- **Dialogs become parameters.** The answers of the colour chooser (`None` is
  "cancelled"), the crossing confirmation and the name dialog are arguments
  of the handlers.
- **The slider is a parameter.** Its value at the time of a click or move is
  an argument of type `SliderValue` (3 to 12, default 5).
- **The combo is a field.** Its selection is the `modo` field of the classes.
- **The canvas preview is a field.** What the canvas was last asked to show
  is the `preview` field: nothing, a fixed shape, or the live irregular
  polygon built on `verticesTemp`.
- **Floating point is abstracted.** `Math.round(Math.hypot(dx, dy))` is
  computed exactly by `Construction.RoundHypot`. It is the unique `r` with
  `(2r-1)² ≤ 4(dx²+dy²) < (2r+1)²`, which idealises the floating-point result.
  `Math.PI`, `Math.atan2` and the rounded `radio·cos`/`radio·sin` pair are
  fields of a `Trig` value passed in, and are not computed.

Two behaviours of the code worth knowing:

- **A four-vertex chain is never reported.** `hayInterseccionEntreVertices`
  skips the pair (first edge, last edge). With four vertices that is the only
  pair, so a chain such as the bowtie (0,0), (10,10), (10,0), (0,10) is never
  reported (`Geometry.BowtieIsNotDetected`, `Geometry.ShortChainsPass`).
- **Choosing the irregular polygon is not a reset.** Choosing "Pol. irregular"
  keeps the pending vertices and the in-progress flag. Every other choice
  clears them and the canvas preview, but not `figuraTemporal`
  (`Construction.SeleccionarHerramienta`).

## Model

| member | source | states |
|---|---|---|
| `Text.IntText` | src/model/PuntoFigura.java:42-45 | `%d`, under a default format locale with ASCII digits, prints an optional minus sign followed by decimal digits |
| `Text.ParseIntText` | src/model/LineaFigura.java:41-44 | a `%d` numeral reads back as the integer printed |
| `Text.Trim` | src/controller/MainController.java:160 | `trim()` removes exactly the characters up to U+0020 at both ends; the result is empty iff the input is all such characters |
| `Text.TrimIdempotent` | src/controller/MainController.java:160 | trimming a trimmed name changes nothing |
| `Shapes.RegularVertex` | src/model/PoligonoRegularFigura.java:51-54 | vertex i is the centre moved by the rounded polar offset at the start angle plus i steps of 2π/n; with radius 0 it is the centre |
| `Shapes.ZeroRadiusCollapses` | src/model/PoligonoRegularFigura.java:78-81 | a zero-radius polygon (the anchor-click preview) has every vertex on its centre |
| `Shapes.OvalBox` | src/model/CirculoFigura.java:36-39 | a circle is painted in the square of side 2·radio centred on its centre; a point in the square of side 6 centred on it |
| `Shapes.IrregularDrawArrays` | src/model/PoligonoIrregularFigura.java:35-43 | the arrays have one entry per vertex, and entry i holds the coordinates of vertex i |
| `Shapes.RegularDrawArrays` | src/model/PoligonoRegularFigura.java:44-55 | the arrays hold exactly the polygon's computed vertices, the same ones `toSVG` exports |
| `Svg.ParseRender` | src/model/CirculoFigura.java:58-62 | the `<tag name="value" … />` text of an element reads back as that element, so the printed form is unambiguous |
| `Svg.ParseRgbText` | src/model/PuntoFigura.java:36-40 | the `rgb(r,g,b)` text of a colour reads back as its red, green and blue |
| `Svg.ParseFillText` | src/model/CirculoFigura.java:53-56 | the fill text reads back as `none` exactly when `relleno` is false, otherwise as the fill colour |
| `Svg.ParsePointsText` | src/model/PoligonoIrregularFigura.java:62-67 | the `points` list reads back as the vertices in their stored order |
| `Svg.PointsTextCounts` | src/model/PoligonoIrregularFigura.java:63-66 | the `points` list has one comma per vertex and one space fewer than vertices: single separators, no trailing space |
| `Svg.IrregularPoints` | src/model/PoligonoIrregularFigura.java:62-67 | the loop over the vertices builds exactly the `points` list of the stored vertices |
| `Svg.RegularPoints` | src/model/PoligonoRegularFigura.java:76-84 | the loop over `nLados` builds exactly the `points` list of the computed vertices |
| `Svg.ToSVG` | src/model/PoligonoRegularFigura.java:67-90 | each shape's `toSVG` returns the text of its element |
| `Svg.PuntoSvg` | src/model/PuntoFigura.java:35-45 | a point exports as a circle with cx = x, cy = y, r = 3, fill the rgb of its colour and no stroke |
| `Svg.PuntoSvgIgnoresAlpha` | src/model/PuntoFigura.java:37-40 | a point's text depends on its colour only through red, green and blue |
| `Svg.LineaSvg` | src/model/LineaFigura.java:35-44 | a line exports x1, y1, x2, y2 in constructor order, stroke the rgb of its colour, stroke-width 1, zero length included |
| `Svg.CirculoSvg` | src/model/CirculoFigura.java:50-62 | a circle exports its centre and radius as given, stroke always its stroke colour, fill `none` exactly when not filled |
| `Svg.PoligonoRegularSvg` | src/model/PoligonoRegularFigura.java:67-90 | a regular polygon exports its `nLados` computed vertices in order, its stroke colour, and fill `none` exactly when not filled |
| `Svg.PoligonoIrregularSvg` | src/model/PoligonoIrregularFigura.java:54-71 | an irregular polygon exports its vertices in stored order, its stroke colour, and fill `none` exactly when not filled |
| `Geometry.SegmentosSeIntersectan` | src/controller/MainController.java:519-546 | a crossing needs all four cross products non-zero; segments sharing an endpoint never cross |
| `Geometry.CrossingIsProper` | src/controller/MainController.java:539-545 | the test is true exactly when the segments are not parallel and meet at a point strictly inside both |
| `Geometry.DiagonalsCross` | src/controller/MainController.java:539-545 | the diagonals of a square cross |
| `Geometry.TouchingDoesNotCross` | src/controller/MainController.java:539-545 | for any four points, a segment with an endpoint on the other segment's line (a T junction, a shared endpoint, collinear segments: some cross product zero) does not cross it |
| `Geometry.ParallelDoNotCross` | src/view/MainFrame.java:429-433 | for any four points, segments with parallel directions (zero cross product of the directions) do not cross |
| `Geometry.CrossFitsInLong` | src/controller/MainController.java:522-525 | for coordinates under 2^30 in absolute value, the `int` differences and the `long` cross products do not overflow |
| `Geometry.HayInterseccionEntreVertices` | src/controller/MainController.java:496-514 | the nested scan answers exactly whether some tested pair of edges (i+2 ≤ j ≤ n-2, except (0, n-2)) crosses |
| `Geometry.ShortChainsPass` | src/view/MainFrame.java:380-399 | a chain of four or fewer vertices is never reported |
| `Geometry.BowtieIsNotDetected` | src/controller/MainController.java:497-503 | the bowtie's first and third edges cross, and the scan does not report it |
| `Geometry.FiveVertexChainTests` | src/controller/MainController.java:499-513 | with five vertices only the pairs (0,2) and (1,3) are tested; the closing edge never is |
| `Geometry.ClosingEdgeNotChecked` | src/controller/MainController.java:499-513 | the chain (0,0), (10,10), (20,0), (25,-10), (18,8) has its closing edge crossing its second edge, neither tested pair crosses, and the scan does not report it |
| `Lienzo.Agregada` | src/model/LienzoModel.java:29-33 | adding a shape puts it last and keeps every earlier shape in place; adding null changes nothing |
| `Lienzo.LienzoModel.GetFiguras` | src/model/LienzoModel.java:21-23 | returns the drawing's shapes in insertion order, the list every add appends to; as a value it cannot be changed through the result |
| `Lienzo.LienzoModel.constructor` | src/model/LienzoModel.java:14-16 | a new drawing is empty |
| `Lienzo.LienzoModel.AgregarFigura` | src/model/LienzoModel.java:29-33 | the list becomes the old list with the shape appended, or stays as it was for null |
| `Lienzo.LienzoModel.Clear` | src/model/LienzoModel.java:38-40 | the list becomes empty |
| `Lienzo.LienzoModel.GetCantidadFiguras` | src/model/LienzoModel.java:45-47 | the count is the length of the list `getFiguras` returns |
| `Construction.RoundHypot` | src/controller/MainController.java:376-378 | the radius is the rounded square root of dx²+dy² |
| `Construction.RoundedRootUnique` | src/controller/MainController.java:398-400 | the rounded root is unique, so the radius is fully determined |
| `Construction.RoundHypotAlongAxis` | src/controller/MainController.java:440-442 | a horizontal or vertical drag gives a radius equal to its length |
| `Construction.Click` | src/controller/MainController.java:336-424 | a click never changes the tool or the colours, keeps the drawing as a prefix and adds at most one shape; it adds one exactly for a point, or for the second click of a line, circle or regular polygon |
| `Construction.FinalizarControlador` | src/controller/MainController.java:104-143 | fewer than three vertices change nothing; otherwise the chain is emptied and the flag and preview cleared; the polygon of the vertices is stored exactly when the chain does not cross or the user confirms |
| `Construction.FinalizarMarco` | src/view/MainFrame.java:205-230 | the state changes, and the drawing grows, exactly when there are three or more vertices and the scan finds no crossing |
| `Construction.Move` | src/controller/MainController.java:426-460 | a move does nothing unless a shape is under way, and it changes only the preview |
| `Construction.SeleccionarHerramienta` | src/controller/MainController.java:64-76 | any tool but the irregular polygon empties `verticesTemp`, clears `enModoDibujar` and the canvas preview; that tool keeps them; the drawing never changes; colours, anchor and `figuraTemporal` are kept in every case |
| `Construction.ElegirColorTrazo` | src/controller/MainController.java:79-88 | a chosen colour becomes the stroke colour, a cancelled chooser changes nothing, nothing else changes |
| `Construction.ElegirColorRelleno` | src/controller/MainController.java:91-100 | a chosen colour becomes the fill colour, a cancelled chooser changes nothing, nothing else changes |
| `Construction.StartInv` | src/controller/MainController.java:43-51 | the initial state satisfies the construction invariant |
| `Construction.ClickPreservesInv` | src/controller/MainController.java:336-424 | a click keeps the invariant |
| `Construction.MovePreservesInv` | src/controller/MainController.java:426-460 | a move keeps the invariant |
| `Construction.StepPreservesInv` | src/controller/MainController.java:61-143 | every handler keeps the invariant |
| `Construction.RunPreservesInv` | src/view/MainFrame.java:148-374 | every state reachable by any events satisfies it: vertices pend only under the irregular tool, a shape under way has a preview anchored at (x0, y0), which, unless the irregular tool was chosen since, is of the selected tool's class and is what the canvas shows; and the live polygon preview needs two vertices |
| `Construction.StepAddsAtMostOne` | src/controller/MainController.java:336-424 | one event appends at most one shape and never changes or reorders earlier ones |
| `Construction.RunExtendsDrawing` | src/model/LienzoModel.java:11-12 | over any events the drawing only grows at its end: the old drawing stays its prefix |
| `Construction.PuntoClick` | src/controller/MainController.java:345-351 | a point click appends exactly one point in the stroke colour and leaves the flag, anchor and vertices alone |
| `Construction.IrregularClick` | src/controller/MainController.java:414-422 | an irregular click appends one vertex, stores nothing, and shows the filled live polygon only from two vertices on |
| `Construction.MovesOnlyPreview` | src/view/MainFrame.java:339-374 | any number of moves, with any slider readings, changes only the preview |
| `Construction.TwoClickCommit` | src/controller/MainController.java:353-412 | the first click anchors and stores nothing; after any moves the second click stores exactly the shape spanned from the anchor to its own point, with the sides the slider shows at that second click, and ends the construction |
| `Construction.PreviewMatchesCommit` | src/controller/MainController.java:434-456 | the shape a move previews is the shape a click at the same point stores |
| `Construction.FirstClickIsZeroDrag` | src/controller/MainController.java:369-374 | the anchor-click preview of a line or circle is the zero-length drag from the anchor |
| `Construction.FinalizarTooFew` | src/controller/MainController.java:105-111 | finalising fewer than three vertices changes nothing, in either variant |
| `Construction.ControladorDeclined` | src/controller/MainController.java:114-129 | a declined crossing chain is dropped: nothing stored, vertices emptied, flag and preview cleared |
| `Construction.ControladorAccepted` | src/controller/MainController.java:133-140 | an accepted or uncrossed chain stores exactly one filled polygon in the current colours holding the vertices as they were, then empties the chain |
| `Construction.MarcoRejectsCrossing` | src/view/MainFrame.java:213-219 | the frame refuses a crossing chain and changes nothing |
| `Construction.MarcoAccepts` | src/view/MainFrame.java:221-229 | the frame stores exactly one filled polygon for an uncrossed chain of three or more vertices, then empties the chain |
| `Construction.VariantsAgreeWithoutCrossing` | src/view/MainFrame.java:205-230 | the two finalise handlers agree on every chain without a detected crossing |
| `Construction.MarcoStepPassesScan` | src/view/MainFrame.java:205-230 | no frame event stores an irregular polygon with fewer than three vertices or a detected crossing |
| `Construction.MarcoRunPassesScan` | src/view/MainFrame.java:213-225 | every irregular polygon in a drawing built by the frame has three or more vertices and passes the scan |
| `Construction.ControladorCanStoreCrossing` | src/controller/MainController.java:114-137 | the controller stores a crossing chain when the user confirms it |
| `Controller.MainController.constructor` | src/controller/MainController.java:43-59 | black stroke, white fill, nothing under way, over the window's drawing |
| `Controller.MainController.ComboFigurasCambiado` | src/controller/MainController.java:64-76 | the combo listener changes the state as `SeleccionarHerramienta` does |
| `Controller.MainController.ColorTrazoPulsado` | src/controller/MainController.java:79-88 | the stroke button changes the state as `ElegirColorTrazo` does |
| `Controller.MainController.ColorRellenoPulsado` | src/controller/MainController.java:91-100 | the fill button changes the state as `ElegirColorRelleno` does |
| `Controller.MainController.FinalizarPoligonoPulsado` | src/controller/MainController.java:104-143 | the finalise button, running the scan, changes the state and the drawing as `FinalizarControlador` does |
| `Controller.MainController.ManejarMouseClicked` | src/controller/MainController.java:336-424 | a click changes the state and the drawing as `Click` does |
| `Controller.MainController.ManejarMouseMoved` | src/controller/MainController.java:426-460 | a move changes the state as `Move` does |
| `Controller.HasForbidden` | src/controller/MainController.java:169-170 | the search finds a character exactly when one of `\ / : * ? " < > \|` occurs in the name |
| `Controller.NombreParaGuardar` | src/controller/MainController.java:148-176 | saving goes on exactly when there are shapes, the dialog was not cancelled, and the trimmed name is non-empty and free of forbidden characters; it uses the trimmed name; each refusal has its reason |
| `Controller.AcceptedNameIsStable` | src/controller/MainController.java:159-176 | an accepted name, typed in again, is accepted unchanged |
| `Frame.MainFrame.constructor` | src/view/MainFrame.java:44-55 | a new frame has a fresh empty drawing, black stroke, white fill and nothing under way |
| `Frame.MainFrame.ComboFigurasCambiado` | src/view/MainFrame.java:150-165 | the combo listener changes the state as `SeleccionarHerramienta` does |
| `Frame.MainFrame.ColorTrazoPulsado` | src/view/MainFrame.java:168-179 | the stroke button changes the state as `ElegirColorTrazo` does |
| `Frame.MainFrame.ColorRellenoPulsado` | src/view/MainFrame.java:182-193 | the fill button changes the state as `ElegirColorRelleno` does |
| `Frame.MainFrame.FinalizarPoligonoPulsado` | src/view/MainFrame.java:205-230 | the finalise button, running the scan, changes the state and the drawing as `FinalizarMarco` does |
| `Frame.MainFrame.ManejarMouseClicked` | src/view/MainFrame.java:253-337 | a click changes the state and the drawing as `Click` does |
| `Frame.MainFrame.ManejarMouseMoved` | src/view/MainFrame.java:339-374 | a move changes the state as `Move` does |

## Left out

- Database access (`ConexionBD`, `DibujoDAO`, `FiguraDAO`) is not part of this model. It is JDBC I/O, so the save and load handlers beyond the name check, and the save/load round trip, are not modelled.
- SVG export to a file (`generarSVG`, `FileWriter`) is left out. It is I/O and reads the canvas size; each shape's `toSVG` is modelled.
- Painting is left out: `dibujar`'s `Graphics2D` calls, `repaint`, and the button enabling in `actualizarBotones` and the combo listener. What `dibujar` computes (the vertex arrays, the oval box) is modelled.
- `CanvasPanel` is not part of this model. The model records only what the handlers asked it to preview.
- The slider's change listener only prints its value, so it is not modelled.
- Floating point is not computed. The radius is the exact rounded root. The angle and the rounded trigonometric offsets are inputs, so the agreement of drawn and exported vertices is proved for any such library.
- Java `int` wrap-around is not modelled in the handlers (`x - x0`) or in the vertex sums. Coordinates are unbounded integers. `Geometry.CrossFitsInLong` shows the crossing test does not overflow for coordinates under 2^30.
- Aliasing of the vertex list is not modelled. `PoligonoIrregularFigura` keeps the list it is given by reference, and `getVertices` returns that same list. As values, the stored polygon cannot change later; the source gets the same effect by handing the stored polygon a copy. The live preview, which shares the list, is the `LiveIrregular` preview that shows the current `verticesTemp`.
- `LienzoModel.getFiguras` returns a live unmodifiable view, which later adds show through; `Lienzo.LienzoModel.GetFiguras` returns the list as it is at the call. No modelled handler keeps the returned list across an add, so no contract depends on the difference.
- `Text.IntText` prints ASCII digits, as `String.format("rgb(%d,%d,%d)", …)` does only when the default format locale uses ASCII digits; under a locale with native digits (Thai, Persian, Arabic) the `rgb(...)` text of every `toSVG` holds other digits, while the `points` list, built with `StringBuilder.append(int)`, stays ASCII whatever the locale. The model assumes a default format locale with ASCII digits.
- `Shapes.RegularDrawArrays` requires `nLados >= 0`, because Java throws when it allocates a negative-length array.
- The controller reads the combo, slider and buttons through view getters that the shown `MainFrame` does not have. The controller's `modo` field and the slider parameter stand in for them, and the two classes are not wired together.
