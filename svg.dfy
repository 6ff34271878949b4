/**
 * `toSVG` of the five shape classes. Every shape prints one self-closing SVG
 * element, `<tag name="value" … />`, its attribute values being `%d`
 * numerals, `rgb(r,g,b)` colours, the word `none` or a `points` list
 * "x,y x,y …". The text is specified by `SvgText`; `ToSVG` builds it the way
 * the classes do (the `points` list in a loop). A reader for the same text
 * (`Import`) shows what each shape's element says: the lemmas at the end
 * decode the text of each shape and name every value it carries.
 */
module Svg {
  import opened Wrappers
  import opened Text
  import opened Shapes

  // ---------------------------------------------------------------- elements

  datatype Attr = Attr(name: string, value: string)

  datatype Element = Element(tag: string, attrs: seq<Attr>)

  /** One attribute as ` name="value"`. */
  function AttrText(a: Attr): string
  {
    [' '] + a.name + ['='] + (['"'] + a.value + ['"'])
  }

  /** Every attribute as ` name="value"`, in order. */
  function AttrsText(attrs: seq<Attr>): string
  {
    if attrs == [] then "" else AttrText(attrs[0]) + AttrsText(attrs[1..])
  }

  /** `<tag name="value" … />`, the shape of every `String.format` in the `toSVG` methods. */
  function Render(e: Element): string
  {
    "<" + e.tag + AttrsText(e.attrs) + " />"
  }

  /** An element whose text can be read back: no blank in the tag, no '=' in a name, no '"' in a value. */
  predicate WellFormed(e: Element)
  {
    ' ' !in e.tag && forall a :: a in e.attrs ==> '=' !in a.name && '"' !in a.value
  }

  /** Reads a run of ` name="value"` attributes. */
  function ParseAttrs(t: string): Option<seq<Attr>>
    decreases |t|
  {
    if t == [] then Some([])
    else if t[0] != ' ' then None
    else match SplitAt(t[1..], '=')
      case None => None
      case Some((name, afterEq)) =>
        if afterEq == [] || afterEq[0] != '"' then None
        else match SplitAt(afterEq[1..], '"')
          case None => None
          case Some((value, rest)) =>
            match ParseAttrs(rest)
            case None => None
            case Some(more) => Some([Attr(name, value)] + more)
  }

  /** Reads `<tag name="value" … />`. */
  function ParseElement(s: string): Option<Element>
  {
    if |s| < 4 || s[0] != '<' || s[|s| - 3..] != " />" then None
    else
      var body := s[1..|s| - 3];
      match SplitAt(body, ' ')
      case None => Some(Element(body, []))
      case Some((tag, rest)) =>
        match ParseAttrs([' '] + rest)
        case None => None
        case Some(attrs) => Some(Element(tag, attrs))
  }

  /** The text of an attribute followed by `rest`, regrouped the way `ParseAttrs` takes it apart. */
  lemma AttrTextThen(a: Attr, rest: string)
    ensures AttrText(a) + rest == [' '] + (a.name + ['='] + (['"'] + (a.value + ['"'] + rest)))
  {
  }

  lemma DropFirst(c: char, s: string)
    ensures ([c] + s)[0] == c && ([c] + s)[1..] == s
  {
  }

  lemma ParseAttrCons(a: Attr, rest: string)
    requires '=' !in a.name && '"' !in a.value
    ensures ParseAttrs(AttrText(a) + rest) ==
      match ParseAttrs(rest)
      case None => None
      case Some(more) => Some([Attr(a.name, a.value)] + more)
  {
    var tail := a.value + ['"'] + rest;
    var afterEq := ['"'] + tail;
    var body := a.name + ['='] + afterEq;
    AttrTextThen(a, rest);
    DropFirst(' ', body);
    SplitAtFirst(a.name, '=', afterEq);
    DropFirst('"', tail);
    SplitAtFirst(a.value, '"', rest);
  }

  lemma {:induction false} ParseAttrsText(attrs: seq<Attr>)
    requires forall a :: a in attrs ==> '=' !in a.name && '"' !in a.value
    ensures ParseAttrs(AttrsText(attrs)) == Some(attrs)
  {
    if attrs != [] {
      ParseAttrCons(attrs[0], AttrsText(attrs[1..]));
      ParseAttrsText(attrs[1..]);
      assert [Attr(attrs[0].name, attrs[0].value)] + attrs[1..] == attrs;
    }
  }

  /** Rendering loses nothing: a well-formed element is read back exactly. */
  lemma ParseRender(e: Element)
    requires WellFormed(e)
    ensures ParseElement(Render(e)) == Some(e)
  {
    var s := Render(e);
    var a := AttrsText(e.attrs);
    assert s[1..|s| - 3] == e.tag + a;
    assert s[|s| - 3..] == " />";
    ParseAttrsText(e.attrs);
    if e.attrs == [] {
      assert s[1..|s| - 3] == e.tag;
    } else {
      assert a == [' '] + a[1..];
      assert e.tag + a == e.tag + [' '] + a[1..];
      SplitAtFirst(e.tag, ' ', a[1..]);
    }
  }

  // ------------------------------------------------------------------ values

  datatype Rgb = Rgb(red: int, green: int, blue: int)

  /** What the SVG shows of a colour: its red, green and blue, never its alpha. */
  function RgbOf(c: Color): Rgb { Rgb(c.red, c.green, c.blue) }

  /** `String.format("rgb(%d,%d,%d)", getRed(), getGreen(), getBlue())`. */
  function RgbText(c: Color): string
  {
    "rgb(" + IntText(c.red) + "," + IntText(c.green) + "," + IntText(c.blue) + ")"
  }

  function ParseRgb(s: string): Option<Rgb>
  {
    if |s| < 5 || s[..4] != "rgb(" || s[|s| - 1] != ')' then None
    else match SplitAt(s[4..|s| - 1], ',')
      case None => None
      case Some((r, gb)) =>
        match SplitAt(gb, ',')
        case None => None
        case Some((g, b)) =>
          match (ParseInt(r), ParseInt(g), ParseInt(b))
          case (Some(rv), Some(gv), Some(bv)) => Some(Rgb(rv, gv, bv))
          case _ => None
  }

  /** `rgb(` and `)` around `mid` are found where `ParseRgb` looks for them. */
  lemma RgbFrame(mid: string)
    ensures var s := "rgb(" + mid + ")";
      |s| >= 5 && s[..4] == "rgb(" && s[|s| - 1] == ')' && s[4..|s| - 1] == mid
  {
  }

  lemma ParseRgbText(c: Color)
    ensures ParseRgb(RgbText(c)) == Some(RgbOf(c))
  {
    var r, g, b := IntText(c.red), IntText(c.green), IntText(c.blue);
    var gb := g + [','] + b;
    var mid := r + [','] + gb;
    assert RgbText(c) == "rgb(" + mid + ")";
    RgbFrame(mid);
    NumeralAvoids(r, ',');
    NumeralAvoids(g, ',');
    SplitAtFirst(r, ',', gb);
    SplitAtFirst(g, ',', b);
    ParseIntText(c.red);
    ParseIntText(c.green);
    ParseIntText(c.blue);
  }

  /** A fill or stroke as the SVG states it: `none` or a colour. */
  datatype Paint = NoPaint | Solid(rgb: Rgb)

  /** The `fill` value of the filled shapes: the fill colour when `relleno`, otherwise `none`. */
  function FillText(relleno: bool, c: Color): string
  {
    if relleno then RgbText(c) else "none"
  }

  function ParsePaint(s: string): Option<Paint>
  {
    if s == "none" then Some(NoPaint)
    else match ParseRgb(s)
      case None => None
      case Some(rgb) => Some(Solid(rgb))
  }

  lemma ParseFillText(relleno: bool, c: Color)
    ensures ParsePaint(FillText(relleno, c)) == Some(if relleno then Solid(RgbOf(c)) else NoPaint)
  {
    ParseRgbText(c);
    if relleno {
      assert RgbText(c)[0] == 'r';
    }
  }

  lemma RgbTextAvoidsQuote(c: Color)
    ensures '"' !in RgbText(c)
  {
    NumeralAvoids(IntText(c.red), '"');
    NumeralAvoids(IntText(c.green), '"');
    NumeralAvoids(IntText(c.blue), '"');
  }

  // ----------------------------------------------------------------- points

  /** One vertex as "x,y". */
  function PairText(p: Point): string
  {
    IntText(p.x) + "," + IntText(p.y)
  }

  /** The `points` value: every vertex as "x,y", in order, one blank between two, none at the end. */
  function PointsText(vs: seq<Point>): string
  {
    if |vs| == 0 then ""
    else if |vs| == 1 then PairText(vs[0])
    else PairText(vs[0]) + " " + PointsText(vs[1..])
  }

  function ParsePair(s: string): Option<Point>
  {
    match SplitAt(s, ',')
    case None => None
    case Some((a, b)) =>
      match (ParseInt(a), ParseInt(b))
      case (Some(x), Some(y)) => Some(Point(x, y))
      case _ => None
  }

  /** Reads one or more "x,y" separated by single blanks. */
  function ParsePointList(s: string): Option<seq<Point>>
    decreases |s|
  {
    match SplitAt(s, ' ')
    case None =>
      (match ParsePair(s)
       case None => None
       case Some(p) => Some([p]))
    case Some((a, b)) =>
      match (ParsePair(a), ParsePointList(b))
      case (Some(p), Some(ps)) => Some([p] + ps)
      case _ => None
  }

  function ParsePoints(s: string): Option<seq<Point>>
  {
    if s == [] then Some([]) else ParsePointList(s)
  }

  lemma PairTextParts(p: Point)
    ensures PairText(p) == IntText(p.x) + [','] + IntText(p.y)
    ensures ' ' !in PairText(p) && '"' !in PairText(p) && PairText(p) != []
    ensures ParsePair(PairText(p)) == Some(p)
  {
    NumeralAvoids(IntText(p.x), ',');
    NumeralAvoids(IntText(p.x), ' ');
    NumeralAvoids(IntText(p.y), ' ');
    NumeralAvoids(IntText(p.x), '"');
    NumeralAvoids(IntText(p.y), '"');
    SplitAtFirst(IntText(p.x), ',', IntText(p.y));
    ParseIntText(p.x);
    ParseIntText(p.y);
  }

  /** A pair, a blank and a readable list read as the pair followed by the list. */
  lemma ParsePointListCons(a: string, b: string, p: Point, ps: seq<Point>)
    requires ' ' !in a && ParsePair(a) == Some(p) && ParsePointList(b) == Some(ps)
    ensures ParsePointList(a + [' '] + b) == Some([p] + ps)
  {
    SplitAtFirst(a, ' ', b);
  }

  lemma ParseOnePoint(p: Point)
    ensures ParsePoints(PointsText([p])) == Some([p])
  {
    PairTextParts(p);
  }

  /** A vertex's text has no blank and reads back as the vertex. */
  lemma PairReads(p: Point)
    ensures ' ' !in PairText(p) && ParsePair(PairText(p)) == Some(p)
  {
    PairTextParts(p);
  }

  /** The text of two or more vertices: the first pair, a blank, the text of the rest. */
  lemma PointsTextCons(vs: seq<Point>)
    requires |vs| > 1
    ensures PointsText(vs) == PairText(vs[0]) + [' '] + PointsText(vs[1..])
  {
  }

  /** Reading a list of two or more vertices once its tail reads back. */
  lemma ParseMorePoints(vs: seq<Point>)
    requires |vs| > 1 && ParsePointList(PointsText(vs[1..])) == Some(vs[1..])
    ensures ParsePointList(PointsText(vs)) == Some([vs[0]] + vs[1..])
  {
    PairReads(vs[0]);
    ParsePointListCons(PairText(vs[0]), PointsText(vs[1..]), vs[0], vs[1..]);
    PointsTextCons(vs);
  }

  /** The `points` text is read back as exactly the vertices it was printed from. */
  lemma {:induction false} ParsePointsText(vs: seq<Point>)
    ensures ParsePoints(PointsText(vs)) == Some(vs)
  {
    if |vs| == 1 {
      ParseOnePoint(vs[0]);
      assert [vs[0]] == vs;
    } else if |vs| > 1 {
      ParsePointsText(vs[1..]);
      PointsTextNotEmpty(vs[1..]);
      ParseMorePoints(vs);
      PointsTextNotEmpty(vs);
      assert [vs[0]] + vs[1..] == vs;
    }
  }

  lemma {:induction false} PointsTextNotEmpty(vs: seq<Point>)
    ensures PointsText(vs) == [] <==> vs == []
    ensures '"' !in PointsText(vs)
  {
    if vs != [] {
      PairTextParts(vs[0]);
      PointsTextNotEmpty(vs[1..]);
    }
  }

  /**
   * The `points` text holds one ',' per vertex and one blank between two
   * consecutive vertices: n pairs joined by n - 1 single blanks.
   */
  lemma {:induction false} PointsTextCounts(vs: seq<Point>)
    ensures Count(PointsText(vs), ',') == |vs|
    ensures Count(PointsText(vs), ' ') == if vs == [] then 0 else |vs| - 1
  {
    if vs != [] {
      var p := vs[0];
      PairTextParts(p);
      NumeralAvoids(IntText(p.x), ',');
      NumeralAvoids(IntText(p.y), ',');
      CountAbsent(IntText(p.x), ',');
      CountAbsent(IntText(p.y), ',');
      CountAbsent(PairText(p), ' ');
      CountConcat(IntText(p.x) + [','], IntText(p.y), ',');
      CountConcat(IntText(p.x), [','], ',');
      if |vs| > 1 {
        PointsTextCounts(vs[1..]);
        CountConcat(PairText(p) + " ", PointsText(vs[1..]), ',');
        CountConcat(PairText(p) + " ", PointsText(vs[1..]), ' ');
        CountConcat(PairText(p), " ", ',');
        CountConcat(PairText(p), " ", ' ');
      }
    }
  }

  lemma {:induction false} PointsTextSnoc(vs: seq<Point>, p: Point)
    requires vs != []
    ensures PointsText(vs + [p]) == PointsText(vs) + " " + PairText(p)
  {
    var w := vs + [p];
    if |vs| == 1 {
      assert w[1..] == [p];
      assert PointsText(w) == PairText(vs[0]) + " " + PointsText([p]);
    } else {
      assert w[1..] == vs[1..] + [p];
      PointsTextSnoc(vs[1..], p);
      var head, tail := PairText(vs[0]) + " ", PointsText(vs[1..]);
      calc {
        PointsText(w);
        head + PointsText(vs[1..] + [p]);
        head + (tail + " " + PairText(p));
        { assert head + (tail + " " + PairText(p)) == (head + tail) + " " + PairText(p); }
        (head + tail) + " " + PairText(p);
      }
    }
  }

  /** What the `points` loop has built before vertex `i`: the first `i` pairs and the blank after them. */
  ghost function PointsPrefix(vs: seq<Point>, i: nat): string
    requires i <= |vs|
  {
    if i == 0 then "" else PointsText(vs[..i]) + " "
  }

  /** The text of the first `i + 1` vertices: that of the first `i`, a blank, and vertex `i`. */
  lemma PointsTextExtend(vs: seq<Point>, i: nat)
    requires i < |vs|
    ensures PointsPrefix(vs, i) + PairText(vs[i]) == PointsText(vs[..i + 1])
  {
    var pair := PairText(vs[i]);
    if i == 0 {
      assert vs[..1] == [vs[0]];
      assert PointsText([vs[0]]) == pair;
      assert PointsPrefix(vs, i) + pair == pair;
    } else {
      var done := PointsText(vs[..i]);
      assert vs[..i + 1] == vs[..i] + [vs[i]];
      PointsTextSnoc(vs[..i], vs[i]);
      assert PointsText(vs[..i + 1]) == done + " " + pair;
      assert PointsPrefix(vs, i) == done + " ";
    }
  }

  /** One round of the `points` loop: append vertex `i`, then a blank unless it is the last. */
  lemma PointsStep(vs: seq<Point>, i: nat)
    requires i < |vs|
    ensures i + 1 < |vs| ==> PointsPrefix(vs, i) + PairText(vs[i]) + " " == PointsPrefix(vs, i + 1)
    ensures i + 1 == |vs| ==> PointsPrefix(vs, i) + PairText(vs[i]) == PointsText(vs)
  {
    PointsTextExtend(vs, i);
    if i + 1 == |vs| {
      assert vs[..i + 1] == vs;
    }
  }

  /** The `StringBuilder` loop of PoligonoIrregularFigura.toSVG. */
  method IrregularPoints(vertices: seq<Point>) returns (s: string)
    ensures s == PointsText(vertices)
  {
    s := "";
    var n := |vertices|;
    for i := 0 to n
      invariant i < n ==> s == PointsPrefix(vertices, i)
      invariant i == n ==> s == PointsText(vertices)
    {
      var p := vertices[i];
      PointsStep(vertices, i);
      s := s + (IntText(p.x) + "," + IntText(p.y));
      if i < n - 1 {
        s := s + " ";
      }
    }
  }

  /** Vertex `i` of the list is the one the loop computes in round `i`. */
  lemma RegularVertexAt(f: Figura, i: int, trig: Trig)
    requires f.PoligonoRegularFigura? && 0 <= i < f.nLados
    ensures var offset := trig.roundedPolar(f.radio, VertexAngle(f.anguloInicio, f.nLados, i, trig));
      RegularVertices(f, trig)[i] == Point(f.centroX + offset.x, f.centroY + offset.y)
  {
  }

  /** The `StringBuilder` loop of PoligonoRegularFigura.toSVG, over `nLados` computed vertices. */
  method RegularPoints(f: Figura, trig: Trig) returns (s: string)
    requires f.PoligonoRegularFigura?
    ensures s == PointsText(RegularVertices(f, trig))
  {
    s := "";
    ghost var vs := RegularVertices(f, trig);
    var i := 0;
    while i < f.nLados
      invariant 0 <= i <= |vs|
      invariant i < |vs| ==> s == PointsPrefix(vs, i)
      invariant i == |vs| ==> s == PointsText(vs)
    {
      var ang := VertexAngle(f.anguloInicio, f.nLados, i, trig);
      var offset := trig.roundedPolar(f.radio, ang);
      var vx := f.centroX + offset.x;
      var vy := f.centroY + offset.y;
      RegularVertexAt(f, i, trig);
      assert PairText(vs[i]) == IntText(vx) + "," + IntText(vy);
      PointsStep(vs, i);
      s := s + (IntText(vx) + "," + IntText(vy));
      if i < f.nLados - 1 {
        s := s + " ";
      }
      i := i + 1;
    }
  }


  // ------------------------------------------------------------ the shapes

  /** The element each shape's `toSVG` prints. */
  function ElementOf(f: Figura, trig: Trig): Element
  {
    match f
    case PuntoFigura(x, y, c) =>
      Element("circle", [Attr("cx", IntText(x)), Attr("cy", IntText(y)), Attr("r", IntText(3)),
                         Attr("fill", RgbText(c))])
    case LineaFigura(x1, y1, x2, y2, c) =>
      Element("line", [Attr("x1", IntText(x1)), Attr("y1", IntText(y1)),
                       Attr("x2", IntText(x2)), Attr("y2", IntText(y2)),
                       Attr("stroke", RgbText(c)), Attr("stroke-width", "1")])
    case CirculoFigura(cx, cy, radio, cT, cR, relleno) =>
      Element("circle", [Attr("cx", IntText(cx)), Attr("cy", IntText(cy)), Attr("r", IntText(radio)),
                         Attr("stroke", RgbText(cT)), Attr("fill", FillText(relleno, cR))])
    case PoligonoRegularFigura(_, _, _, _, _, cT, cR, relleno) =>
      Element("polygon", [Attr("points", PointsText(RegularVertices(f, trig))),
                          Attr("stroke", RgbText(cT)), Attr("fill", FillText(relleno, cR))])
    case PoligonoIrregularFigura(vertices, cT, cR, relleno) =>
      Element("polygon", [Attr("points", PointsText(vertices)),
                          Attr("stroke", RgbText(cT)), Attr("fill", FillText(relleno, cR))])
  }

  /** The text `toSVG` returns. */
  function SvgText(f: Figura, trig: Trig): string
  {
    Render(ElementOf(f, trig))
  }

  /** `toSVG`, dispatched on the shape's class. */
  method ToSVG(f: Figura, trig: Trig) returns (s: string)
    ensures s == SvgText(f, trig)
  {
    match f {
      case PoligonoRegularFigura(_, _, _, _, _, cT, cR, relleno) =>
        var points := RegularPoints(f, trig);
        s := Render(Element("polygon", [Attr("points", points), Attr("stroke", RgbText(cT)),
                                        Attr("fill", FillText(relleno, cR))]));
      case PoligonoIrregularFigura(vertices, cT, cR, relleno) =>
        var points := IrregularPoints(vertices);
        s := Render(Element("polygon", [Attr("points", points), Attr("stroke", RgbText(cT)),
                                        Attr("fill", FillText(relleno, cR))]));
      case _ =>
        s := Render(ElementOf(f, trig));
    }
  }

  // ------------------------------------------------------ reading it back

  /** What an exported element says, value by value. */
  datatype Exported =
    | SvgCircle(cx: int, cy: int, r: int, outline: Option<Rgb>, fill: Paint)
    | SvgLine(x1: int, y1: int, x2: int, y2: int, stroke: Rgb, strokeWidth: int)
    | SvgPolygon(points: seq<Point>, stroke: Rgb, fill: Paint)

  function Names(attrs: seq<Attr>): seq<string>
  {
    seq(|attrs|, i requires 0 <= i < |attrs| => attrs[i].name)
  }

  function Values(attrs: seq<Attr>): seq<string>
  {
    seq(|attrs|, i requires 0 <= i < |attrs| => attrs[i].value)
  }

  /** The attribute names of each exported element, in the order the shapes print them. */
  const DiscNames: seq<string> := ["cx", "cy", "r", "fill"]
  const RingNames: seq<string> := ["cx", "cy", "r", "stroke", "fill"]
  const LineNames: seq<string> := ["x1", "y1", "x2", "y2", "stroke", "stroke-width"]
  const PolygonNames: seq<string> := ["points", "stroke", "fill"]

  function DecodeDisc(v: seq<string>): Option<Exported>
    requires |v| == 4
  {
    match (ParseInt(v[0]), ParseInt(v[1]), ParseInt(v[2]), ParsePaint(v[3]))
    case (Some(cx), Some(cy), Some(r), Some(fill)) => Some(SvgCircle(cx, cy, r, None, fill))
    case _ => None
  }

  function DecodeRing(v: seq<string>): Option<Exported>
    requires |v| == 5
  {
    match (ParseInt(v[0]), ParseInt(v[1]), ParseInt(v[2]), ParseRgb(v[3]), ParsePaint(v[4]))
    case (Some(cx), Some(cy), Some(r), Some(stroke), Some(fill)) => Some(SvgCircle(cx, cy, r, Some(stroke), fill))
    case _ => None
  }

  function DecodeLine(v: seq<string>): Option<Exported>
    requires |v| == 6
  {
    match (ParseInt(v[0]), ParseInt(v[1]), ParseInt(v[2]), ParseInt(v[3]), ParseRgb(v[4]), ParseInt(v[5]))
    case (Some(x1), Some(y1), Some(x2), Some(y2), Some(stroke), Some(w)) => Some(SvgLine(x1, y1, x2, y2, stroke, w))
    case _ => None
  }

  function DecodePolygon(v: seq<string>): Option<Exported>
    requires |v| == 3
  {
    match (ParsePoints(v[0]), ParseRgb(v[1]), ParsePaint(v[2]))
    case (Some(points), Some(stroke), Some(fill)) => Some(SvgPolygon(points, stroke, fill))
    case _ => None
  }

  /** Interprets an element by its tag and its attribute names; any other element is not a shape. */
  function Decode(e: Element): Option<Exported>
  {
    var names := Names(e.attrs);
    var values := Values(e.attrs);
    if e.tag == "circle" && names == DiscNames then DecodeDisc(values)
    else if e.tag == "circle" && names == RingNames then DecodeRing(values)
    else if e.tag == "line" && names == LineNames then DecodeLine(values)
    else if e.tag == "polygon" && names == PolygonNames then DecodePolygon(values)
    else None
  }

  /** Reads the text of one exported shape. */
  function Import(s: string): Option<Exported>
  {
    match ParseElement(s)
    case None => None
    case Some(e) => Decode(e)
  }

  /** Reading the text of a well-formed element is interpreting the element itself. */
  lemma ImportRender(e: Element)
    requires WellFormed(e)
    ensures Import(Render(e)) == Decode(e)
  {
    ParseRender(e);
  }

  /** An element is well formed when its tag has no blank, its names no '=' and its values no '"'. */
  lemma WellFormedByParts(e: Element)
    requires ' ' !in e.tag
    requires forall n :: n in Names(e.attrs) ==> '=' !in n
    requires forall t :: t in Values(e.attrs) ==> '"' !in t
    ensures WellFormed(e)
  {
    forall a | a in e.attrs
      ensures '=' !in a.name && '"' !in a.value
    {
      var i :| 0 <= i < |e.attrs| && e.attrs[i] == a;
      assert Names(e.attrs)[i] == a.name;
      assert Values(e.attrs)[i] == a.value;
    }
  }

  lemma NumeralQuoteFree(i: int)
    ensures '"' !in IntText(i)
  {
    NumeralAvoids(IntText(i), '"');
  }

  /** `toSVG` of a point: a `<circle>` at (x, y) of radius 3 filled with the stroke colour, without a stroke. */
  lemma PuntoSvg(x: int, y: int, c: Color, trig: Trig)
    ensures Import(SvgText(PuntoFigura(x, y, c), trig)) == Some(SvgCircle(x, y, 3, None, Solid(RgbOf(c))))
  {
    var e := ElementOf(PuntoFigura(x, y, c), trig);
    var v := [IntText(x), IntText(y), IntText(3), RgbText(c)];
    PuntoElement(e, x, y, c);
    ImportRender(e);
    ParseIntText(x);
    ParseIntText(y);
    ParseIntText(3);
    ParseFillText(true, c);
    assert DecodeDisc(v) == Some(SvgCircle(x, y, 3, None, Solid(RgbOf(c))));
  }

  lemma PuntoAttrs(e: Element, x: int, y: int, c: Color)
    requires e == Element("circle", [Attr("cx", IntText(x)), Attr("cy", IntText(y)), Attr("r", IntText(3)),
                                     Attr("fill", RgbText(c))])
    ensures Names(e.attrs) == DiscNames
    ensures Values(e.attrs) == [IntText(x), IntText(y), IntText(3), RgbText(c)]
  {
  }

  lemma PuntoWellFormed(e: Element, x: int, y: int, c: Color)
    requires e == Element("circle", [Attr("cx", IntText(x)), Attr("cy", IntText(y)), Attr("r", IntText(3)),
                                     Attr("fill", RgbText(c))])
    ensures WellFormed(e)
  {
    NumeralQuoteFree(x);
    NumeralQuoteFree(y);
    NumeralQuoteFree(3);
    RgbTextAvoidsQuote(c);
    PuntoAttrs(e, x, y, c);
    WellFormedByParts(e);
  }

  lemma PuntoElement(e: Element, x: int, y: int, c: Color)
    requires e == Element("circle", [Attr("cx", IntText(x)), Attr("cy", IntText(y)), Attr("r", IntText(3)),
                                     Attr("fill", RgbText(c))])
    ensures WellFormed(e)
    ensures Decode(e) == DecodeDisc([IntText(x), IntText(y), IntText(3), RgbText(c)])
  {
    PuntoWellFormed(e, x, y, c);
    PuntoAttrs(e, x, y, c);
  }

  /** A point's text depends on its colour's red, green and blue only. */
  lemma PuntoSvgIgnoresAlpha(x: int, y: int, c: Color, d: Color, trig: Trig)
    requires RgbOf(c) == RgbOf(d)
    ensures SvgText(PuntoFigura(x, y, c), trig) == SvgText(PuntoFigura(x, y, d), trig)
  {
  }

  /** `toSVG` of a line: its endpoints in constructor order, its stroke colour and stroke width 1. */
  lemma LineaSvg(x1: int, y1: int, x2: int, y2: int, c: Color, trig: Trig)
    ensures Import(SvgText(LineaFigura(x1, y1, x2, y2, c), trig)) == Some(SvgLine(x1, y1, x2, y2, RgbOf(c), 1))
  {
    var e := ElementOf(LineaFigura(x1, y1, x2, y2, c), trig);
    var v := [IntText(x1), IntText(y1), IntText(x2), IntText(y2), RgbText(c), "1"];
    LineaElement(e, x1, y1, x2, y2, c);
    ImportRender(e);
    assert "1" == IntText(1);
    ParseIntText(x1);
    ParseIntText(y1);
    ParseIntText(x2);
    ParseIntText(y2);
    ParseIntText(1);
    ParseRgbText(c);
    assert DecodeLine(v) == Some(SvgLine(x1, y1, x2, y2, RgbOf(c), 1));
  }

  lemma LineaAttrs(e: Element, x1: int, y1: int, x2: int, y2: int, c: Color)
    requires e == Element("line", [Attr("x1", IntText(x1)), Attr("y1", IntText(y1)),
                                   Attr("x2", IntText(x2)), Attr("y2", IntText(y2)),
                                   Attr("stroke", RgbText(c)), Attr("stroke-width", "1")])
    ensures Names(e.attrs) == LineNames
    ensures Values(e.attrs) == [IntText(x1), IntText(y1), IntText(x2), IntText(y2), RgbText(c), "1"]
  {
  }

  lemma LineaWellFormed(e: Element, x1: int, y1: int, x2: int, y2: int, c: Color)
    requires e == Element("line", [Attr("x1", IntText(x1)), Attr("y1", IntText(y1)),
                                   Attr("x2", IntText(x2)), Attr("y2", IntText(y2)),
                                   Attr("stroke", RgbText(c)), Attr("stroke-width", "1")])
    ensures WellFormed(e)
  {
    LineaValuesQuoteFree(x1, y1, x2, y2, c);
    LineaAttrs(e, x1, y1, x2, y2, c);
    WellFormedByParts(e);
  }

  lemma LineaElement(e: Element, x1: int, y1: int, x2: int, y2: int, c: Color)
    requires e == Element("line", [Attr("x1", IntText(x1)), Attr("y1", IntText(y1)),
                                   Attr("x2", IntText(x2)), Attr("y2", IntText(y2)),
                                   Attr("stroke", RgbText(c)), Attr("stroke-width", "1")])
    ensures WellFormed(e)
    ensures Decode(e) == DecodeLine([IntText(x1), IntText(y1), IntText(x2), IntText(y2), RgbText(c), "1"])
  {
    LineaWellFormed(e, x1, y1, x2, y2, c);
    LineaAttrs(e, x1, y1, x2, y2, c);
  }

  lemma LineaValuesQuoteFree(x1: int, y1: int, x2: int, y2: int, c: Color)
    ensures forall t :: t in [IntText(x1), IntText(y1), IntText(x2), IntText(y2), RgbText(c), "1"] ==> '"' !in t
  {
    NumeralQuoteFree(x1);
    NumeralQuoteFree(y1);
    NumeralQuoteFree(x2);
    NumeralQuoteFree(y2);
    RgbTextAvoidsQuote(c);
  }

  /**
   * `toSVG` of a circle: centre and radius as given, the stroke colour always,
   * and fill `none` exactly when `relleno` is false.
   */
  lemma CirculoSvg(cx: int, cy: int, radio: int, cT: Color, cR: Color, relleno: bool, trig: Trig)
    ensures Import(SvgText(CirculoFigura(cx, cy, radio, cT, cR, relleno), trig))
         == Some(SvgCircle(cx, cy, radio, Some(RgbOf(cT)), if relleno then Solid(RgbOf(cR)) else NoPaint))
  {
    var e := ElementOf(CirculoFigura(cx, cy, radio, cT, cR, relleno), trig);
    var v := [IntText(cx), IntText(cy), IntText(radio), RgbText(cT), FillText(relleno, cR)];
    CirculoElement(e, cx, cy, radio, cT, cR, relleno);
    ImportRender(e);
    ParseIntText(cx);
    ParseIntText(cy);
    ParseIntText(radio);
    ParseRgbText(cT);
    ParseFillText(relleno, cR);
    assert DecodeRing(v) == Some(SvgCircle(cx, cy, radio, Some(RgbOf(cT)), if relleno then Solid(RgbOf(cR)) else NoPaint));
  }

  lemma CirculoAttrs(e: Element, cx: int, cy: int, radio: int, cT: Color, cR: Color, relleno: bool)
    requires e == Element("circle", [Attr("cx", IntText(cx)), Attr("cy", IntText(cy)), Attr("r", IntText(radio)),
                                     Attr("stroke", RgbText(cT)), Attr("fill", FillText(relleno, cR))])
    ensures Names(e.attrs) == RingNames
    ensures Values(e.attrs) == [IntText(cx), IntText(cy), IntText(radio), RgbText(cT), FillText(relleno, cR)]
  {
  }

  lemma CirculoWellFormed(e: Element, cx: int, cy: int, radio: int, cT: Color, cR: Color, relleno: bool)
    requires e == Element("circle", [Attr("cx", IntText(cx)), Attr("cy", IntText(cy)), Attr("r", IntText(radio)),
                                     Attr("stroke", RgbText(cT)), Attr("fill", FillText(relleno, cR))])
    ensures WellFormed(e)
  {
    NumeralQuoteFree(cx);
    NumeralQuoteFree(cy);
    NumeralQuoteFree(radio);
    RgbTextAvoidsQuote(cT);
    RgbTextAvoidsQuote(cR);
    CirculoAttrs(e, cx, cy, radio, cT, cR, relleno);
    WellFormedByParts(e);
  }

  lemma CirculoElement(e: Element, cx: int, cy: int, radio: int, cT: Color, cR: Color, relleno: bool)
    requires e == Element("circle", [Attr("cx", IntText(cx)), Attr("cy", IntText(cy)), Attr("r", IntText(radio)),
                                     Attr("stroke", RgbText(cT)), Attr("fill", FillText(relleno, cR))])
    ensures WellFormed(e)
    ensures Decode(e) == DecodeRing([IntText(cx), IntText(cy), IntText(radio), RgbText(cT), FillText(relleno, cR)])
  {
    CirculoWellFormed(e, cx, cy, radio, cT, cR, relleno);
    CirculoAttrs(e, cx, cy, radio, cT, cR, relleno);
    assert RingNames != DiscNames;
  }

  lemma PolygonDecode(points: seq<Point>, cT: Color, cR: Color, relleno: bool)
    ensures DecodePolygon([PointsText(points), RgbText(cT), FillText(relleno, cR)])
         == Some(SvgPolygon(points, RgbOf(cT), if relleno then Solid(RgbOf(cR)) else NoPaint))
  {
    ParsePointsText(points);
    ParseRgbText(cT);
    ParseFillText(relleno, cR);
  }

  lemma PolygonAttrs(e: Element, points: seq<Point>, cT: Color, cR: Color, relleno: bool)
    requires e == Element("polygon", [Attr("points", PointsText(points)), Attr("stroke", RgbText(cT)),
                                      Attr("fill", FillText(relleno, cR))])
    ensures Names(e.attrs) == PolygonNames
    ensures Values(e.attrs) == [PointsText(points), RgbText(cT), FillText(relleno, cR)]
  {
  }

  lemma PolygonValuesQuoteFree(points: seq<Point>, cT: Color, cR: Color, relleno: bool)
    ensures forall t :: t in [PointsText(points), RgbText(cT), FillText(relleno, cR)] ==> '"' !in t
  {
    PointsTextNotEmpty(points);
    RgbTextAvoidsQuote(cT);
    RgbTextAvoidsQuote(cR);
  }

  lemma PolygonWellFormed(e: Element, points: seq<Point>, cT: Color, cR: Color, relleno: bool)
    requires e == Element("polygon", [Attr("points", PointsText(points)), Attr("stroke", RgbText(cT)),
                                      Attr("fill", FillText(relleno, cR))])
    ensures WellFormed(e)
  {
    PolygonValuesQuoteFree(points, cT, cR, relleno);
    PolygonAttrs(e, points, cT, cR, relleno);
    WellFormedByParts(e);
  }

  lemma PolygonElement(e: Element, points: seq<Point>, cT: Color, cR: Color, relleno: bool)
    requires e == Element("polygon", [Attr("points", PointsText(points)), Attr("stroke", RgbText(cT)),
                                      Attr("fill", FillText(relleno, cR))])
    ensures Decode(e) == DecodePolygon([PointsText(points), RgbText(cT), FillText(relleno, cR)])
  {
    PolygonAttrs(e, points, cT, cR, relleno);
  }

  lemma PolygonImport(e: Element, points: seq<Point>, cT: Color, cR: Color, relleno: bool)
    requires e == Element("polygon", [Attr("points", PointsText(points)), Attr("stroke", RgbText(cT)),
                                      Attr("fill", FillText(relleno, cR))])
    ensures Import(Render(e)) == Some(SvgPolygon(points, RgbOf(cT), if relleno then Solid(RgbOf(cR)) else NoPaint))
  {
    PolygonWellFormed(e, points, cT, cR, relleno);
    PolygonElement(e, points, cT, cR, relleno);
    ImportRender(e);
    PolygonDecode(points, cT, cR, relleno);
  }

  /**
   * `toSVG` of a regular polygon: its `nLados` computed vertices in order
   * (the same ones `RegularDrawArrays` draws), the stroke colour, and fill
   * `none` exactly when `relleno` is false.
   */
  lemma PoligonoRegularSvg(f: Figura, trig: Trig)
    requires f.PoligonoRegularFigura?
    ensures Import(SvgText(f, trig))
         == Some(SvgPolygon(RegularVertices(f, trig), RgbOf(f.colorTrazo),
                            if f.relleno then Solid(RgbOf(f.colorRelleno)) else NoPaint))
  {
    PolygonImport(ElementOf(f, trig), RegularVertices(f, trig), f.colorTrazo, f.colorRelleno, f.relleno);
  }

  /**
   * `toSVG` of an irregular polygon: its vertices in stored order, the stroke
   * colour, and fill `none` exactly when `relleno` is false.
   */
  lemma PoligonoIrregularSvg(vertices: seq<Point>, cT: Color, cR: Color, relleno: bool, trig: Trig)
    ensures Import(SvgText(PoligonoIrregularFigura(vertices, cT, cR, relleno), trig))
         == Some(SvgPolygon(vertices, RgbOf(cT), if relleno then Solid(RgbOf(cR)) else NoPaint))
  {
    PolygonImport(ElementOf(PoligonoIrregularFigura(vertices, cT, cR, relleno), trig), vertices, cT, cR, relleno);
  }
}
