/**
 * The in-memory drawing: the shapes in the order they were added. Shapes are
 * only ever appended, one at a time, or all removed at once.
 */
module Lienzo {
  import opened Wrappers
  import opened Shapes

  /**
   * The list after `agregarFigura(f)`: a present shape goes to the end, after
   * every shape already there, which keep their places; an absent one (Java's
   * null) changes nothing.
   */
  function Agregada(figuras: seq<Figura>, f: Option<Figura>): (r: seq<Figura>)
    ensures f.None? ==> r == figuras
    ensures f.Some? ==> |r| == |figuras| + 1 && r[..|figuras|] == figuras && r[|figuras|] == f.value
  {
    match f
    case None => figuras
    case Some(g) => figuras + [g]
  }

  /** `LienzoModel`: the list of shapes the canvas paints and the save handler stores. */
  class LienzoModel {
    var figuras: seq<Figura>

    /** A new drawing holds no shapes. */
    constructor ()
      ensures figuras == []
    {
      figuras := [];
    }

    /** The shapes in insertion order; a value, so callers cannot change the list through it. */
    function GetFiguras(): (r: seq<Figura>)
      reads this
      ensures r == figuras
    {
      figuras
    }

    method AgregarFigura(f: Option<Figura>)
      modifies this
      ensures GetFiguras() == Agregada(old(GetFiguras()), f)
    {
      if f.Some? {
        figuras := figuras + [f.value];
      }
    }

    method Clear()
      modifies this
      ensures GetFiguras() == []
    {
      figuras := [];
    }

    /** The number of shapes is the length of the list `getFiguras` returns. */
    function GetCantidadFiguras(): (n: nat)
      reads this
      ensures n == |GetFiguras()|
    {
      |figuras|
    }
  }
}
