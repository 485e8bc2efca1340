/**
 * Page layout and session bracketing (`add_character` and `generate_gcode`):
 * the document is read up to its first NUL; every newline moves the pen to
 * the start of the next line and every other character traces its glyph at
 * the pen and advances the pen by one character width. The commands are
 * wrapped in a fixed preamble (home, absolute positioning, millimetres, pen
 * up) and a postamble (pen lifted to 15 mm).
 */
module Layout {
  import opened Wrappers
  import opened CStrings
  import opened Decimal
  import opened Gcode
  import opened Buffer
  import opened Motion
  import opened Tracer

  /** What loading a character's glyph yields: an error, a glyph that is not an outline, or an outline. */
  datatype GlyphSlot = LoadFailed | NotOutline | Outlined(outline: Outline)

  /**
   * The font at the chosen size: the glyph slot loaded for each character.
   * A document character is one byte of the file (a C `char`, below 256), so
   * a multi-byte UTF-8 sequence is looked up, drawn and advanced byte by byte.
   */
  type GlyphSource = char -> GlyphSlot

  /** The only error that ends a session once the font is open: a glyph that does not load. */
  datatype GenerateError = GlyphLoadError(character: char)

  /** The pen position in whole millimetres. */
  datatype Pen = Pen(x: int, y: int)

  /** The pen after a stretch of the document and the moves traced along it. */
  datatype Placed = Placed(pen: Pen, moves: seq<Move>)

  /** The commands before any character: home, absolute positioning, millimetres, pen up. */
  const Preamble: string := "G28\nG90\nG21\nG0 Z2\n"

  /** The command after the last character: the pen lifted to 15 mm. */
  const Postamble: string := "G0 Z15\n"

  /** Pen height of the final lift. */
  const LiftHeight: nat := 15

  /** Every outline the font yields can be traced without reading outside its points. */
  ghost predicate SourceInBounds(glyphs: GlyphSource) {
    forall c :: glyphs(c).Outlined? ==> InBounds(glyphs(c).outline)
  }

  /** A character whose glyph makes the session fail: one that is looked up and does not load. */
  predicate Fails(glyphs: GlyphSource, c: char) {
    c != '\n' && glyphs(c).LoadFailed?
  }

  /** `add_character`: the moves that trace character c with its origin at (x, y). */
  function CharacterMoves(c: char, glyphs: GlyphSource, x: int, y: int): Result<seq<Move>, GenerateError>
    requires SourceInBounds(glyphs)
  {
    match glyphs(c)
    case LoadFailed => Failure(GlyphLoadError(c))
    case NotOutline => Success([])
    case Outlined(o) => Success(OutlineMoves(o, x, y))
  }

  /** One character of the document: a newline starts the next line, anything else is drawn and advances the pen. */
  function Place(c: char, glyphs: GlyphSource, size: int, pen: Pen): Result<Placed, GenerateError>
    requires SourceInBounds(glyphs)
  {
    if c == '\n' then Success(Placed(Pen(0, pen.y - 2 * size), []))
    else match CharacterMoves(c, glyphs, pen.x, pen.y)
      case Failure(e) => Failure(e)
      case Success(ms) => Success(Placed(Pen(pen.x + size, pen.y), ms))
  }

  /** p followed by the outcome r of what comes after it. */
  function Extend(p: Placed, r: Result<Placed, GenerateError>): Result<Placed, GenerateError> {
    match r
    case Failure(e) => Failure(e)
    case Success(q) => Success(Placed(q.pen, p.moves + q.moves))
  }

  /** The layout of doc from the pen position start, or the error of its first failing character. */
  function Lay(doc: string, glyphs: GlyphSource, size: int, start: Pen): Result<Placed, GenerateError>
    requires SourceInBounds(glyphs)
    decreases |doc|
  {
    if |doc| == 0 then Success(Placed(start, []))
    else
      match Lay(doc[..|doc| - 1], glyphs, size, start)
      case Failure(e) => Failure(e)
      case Success(p) => Extend(p, Place(doc[|doc| - 1], glyphs, size, p.pen))
  }

  /** `generate_gcode`: the whole program text for the document up to its first NUL, or the error that ends it. */
  function Generate(doc: string, glyphs: GlyphSource, startx: int, starty: int, size: int): Result<string, GenerateError>
    requires SourceInBounds(glyphs)
  {
    match Lay(doc[..Strlen(doc)], glyphs, size, Pen(startx, starty))
    case Failure(e) => Failure(e)
    case Success(p) => Success(Preamble + MovesText(p.moves) + Postamble)
  }

  // ---------------------------------------------------------------------------
  // Layout properties
  // ---------------------------------------------------------------------------

  /** The number of newlines in doc. */
  function NewlineCount(doc: string): nat {
    if |doc| == 0 then 0 else NewlineCount(doc[..|doc| - 1]) + (if doc[|doc| - 1] == '\n' then 1 else 0)
  }

  /** The number of characters after the last newline of doc. */
  function LastLineLength(doc: string): nat {
    if |doc| == 0 then 0 else if doc[|doc| - 1] == '\n' then 0 else LastLineLength(doc[..|doc| - 1]) + 1
  }

  /**
   * Where the pen stands after a document: one double character height lower
   * per newline, and one character width right of the line start per
   * character of the last line; the first line starts at startx, every later
   * line at 0.
   */
  lemma {:induction false} LayPen(doc: string, glyphs: GlyphSource, size: int, start: Pen)
    requires SourceInBounds(glyphs)
    ensures Lay(doc, glyphs, size, start).Success? ==>
      Lay(doc, glyphs, size, start).value.pen
        == Pen((if '\n' in doc then 0 else start.x) + size * LastLineLength(doc),
               start.y - 2 * size * NewlineCount(doc))
  {
    if |doc| > 0 {
      var init, c := doc[..|doc| - 1], doc[|doc| - 1];
      assert doc == init + [c];
      LayPen(init, glyphs, size, start);
      assert 2 * size * (NewlineCount(init) + 1) == 2 * size * NewlineCount(init) + 2 * size;
      assert size * (LastLineLength(init) + 1) == size * LastLineLength(init) + size;
    }
  }

  /** Laying out a + b is laying out a, then b from where a left the pen, the moves in order. */
  lemma {:induction false} LayAppend(a: string, b: string, glyphs: GlyphSource, size: int, start: Pen)
    requires SourceInBounds(glyphs)
    ensures Lay(a + b, glyphs, size, start)
         == match Lay(a, glyphs, size, start)
            case Failure(e) => Failure(e)
            case Success(p) => Extend(p, Lay(b, glyphs, size, p.pen))
  {
    if |b| == 0 {
      assert a + b == a;
      match Lay(a, glyphs, size, start)
      case Failure(e) =>
      case Success(p) =>
        assert p.moves + [] == p.moves;
    } else {
      var init, c := b[..|b| - 1], b[|b| - 1];
      assert (a + b)[..|a + b| - 1] == a + init && (a + b)[|a + b| - 1] == c;
      LayAppend(a, init, glyphs, size, start);
      match Lay(a, glyphs, size, start)
      case Failure(e) =>
      case Success(p) =>
        match Lay(init, glyphs, size, p.pen)
        case Failure(e) =>
        case Success(q) =>
          match Place(c, glyphs, size, q.pen)
          case Failure(e) =>
          case Success(r) =>
            AppendAssociates(p.moves, q.moves, r.moves);
    }
  }

  /** Once a prefix of the document fails, the whole document fails with the same error. */
  lemma LayFailureSticks(doc: string, k: nat, glyphs: GlyphSource, size: int, start: Pen)
    requires SourceInBounds(glyphs) && k <= |doc|
    requires Lay(doc[..k], glyphs, size, start).Failure?
    ensures Lay(doc, glyphs, size, start) == Lay(doc[..k], glyphs, size, start)
  {
    assert doc == doc[..k] + doc[k..];
    LayAppend(doc[..k], doc[k..], glyphs, size, start);
  }

  /** The layout fails exactly when some character of the document is looked up and does not load. */
  lemma {:induction false} LayFailsIff(doc: string, glyphs: GlyphSource, size: int, start: Pen)
    requires SourceInBounds(glyphs)
    ensures Lay(doc, glyphs, size, start).Failure? <==> exists i :: 0 <= i < |doc| && Fails(glyphs, doc[i])
  {
    if |doc| > 0 {
      var init, c := doc[..|doc| - 1], doc[|doc| - 1];
      LayFailsIff(init, glyphs, size, start);
      if exists i :: 0 <= i < |init| && Fails(glyphs, init[i]) {
        var i :| 0 <= i < |init| && Fails(glyphs, init[i]);
        assert doc[i] == init[i];
      }
      if exists i :: 0 <= i < |doc| && Fails(glyphs, doc[i]) {
        var i :| 0 <= i < |doc| && Fails(glyphs, doc[i]);
        if i < |init| {
          assert init[i] == doc[i];
        }
      }
    }
  }

  /** The error names the first character that is looked up and does not load. */
  lemma LayReportsFirst(doc: string, k: nat, glyphs: GlyphSource, size: int, start: Pen)
    requires SourceInBounds(glyphs)
    requires k < |doc| && Fails(glyphs, doc[k])
    requires forall i :: 0 <= i < k ==> !Fails(glyphs, doc[i])
    ensures Lay(doc, glyphs, size, start) == Failure(GlyphLoadError(doc[k]))
  {
    var prefix := doc[..k + 1];
    assert prefix[..k] == doc[..k];
    LayFailsIff(doc[..k], glyphs, size, start);
    LayFailureSticks(doc, k + 1, glyphs, size, start);
  }

  /** Only the glyphs of the document's own characters matter, and a newline looks up none. */
  lemma {:induction false} LayReadsOnlyDocumentGlyphs(doc: string, g: GlyphSource, h: GlyphSource, size: int, start: Pen)
    requires SourceInBounds(g) && SourceInBounds(h)
    requires forall i :: 0 <= i < |doc| && doc[i] != '\n' ==> g(doc[i]) == h(doc[i])
    ensures Lay(doc, g, size, start) == Lay(doc, h, size, start)
  {
    if |doc| > 0 {
      var init := doc[..|doc| - 1];
      assert forall i :: 0 <= i < |init| ==> init[i] == doc[i];
      LayReadsOnlyDocumentGlyphs(init, g, h, size, start);
    }
  }

  /** A document of newlines only moves the pen down one double line each and traces nothing. */
  lemma {:induction false} LayNewlinesOnly(doc: string, glyphs: GlyphSource, size: int, start: Pen)
    requires SourceInBounds(glyphs)
    requires forall i :: 0 <= i < |doc| ==> doc[i] == '\n'
    ensures Lay(doc, glyphs, size, start)
         == Success(Placed(Pen(if |doc| == 0 then start.x else 0, start.y - 2 * size * |doc|), []))
  {
    if |doc| > 0 {
      var init := doc[..|doc| - 1];
      assert forall i :: 0 <= i < |init| ==> init[i] == doc[i];
      LayNewlinesOnly(init, glyphs, size, start);
      assert 2 * size * |doc| == 2 * size * |init| + 2 * size;
      var none: seq<Move> := [];
      assert none + none == none;
    }
  }

  // ---------------------------------------------------------------------------
  // Properties of the generated program
  // ---------------------------------------------------------------------------

  /** The preamble and postamble are command lines: the session's fixed commands. */
  lemma BracketCommands()
    ensures Preamble == Render([Home, AbsolutePositioning, Millimetres, PenHeight(TravelHeight)])
    ensures Postamble == Render([PenHeight(LiftHeight)])
  {
    PreambleLines();
    PostambleLine();
  }

  lemma PreambleLines()
    ensures Preamble == Render([Home, AbsolutePositioning, Millimetres, PenHeight(TravelHeight)])
  {
    var tail := [AbsolutePositioning, Millimetres, PenHeight(TravelHeight)];
    PreambleTail();
    RenderCons(Home, tail);
    assert [Home, AbsolutePositioning, Millimetres, PenHeight(TravelHeight)] == [Home] + tail;
  }

  lemma PreambleTail()
    ensures Render([AbsolutePositioning, Millimetres, PenHeight(TravelHeight)]) == "G90\nG21\nG0 Z2\n"
  {
    var up := [PenHeight(TravelHeight)];
    PenUpLine();
    RenderCons(Millimetres, up);
    RenderCons(AbsolutePositioning, [Millimetres] + up);
    assert [AbsolutePositioning, Millimetres, PenHeight(TravelHeight)] == [AbsolutePositioning] + ([Millimetres] + up);
  }

  lemma PenUpLine()
    ensures Render([PenHeight(TravelHeight)]) == "G0 Z2\n"
  {
    assert NatText(2) == "2";
    RenderCons(PenHeight(TravelHeight), []);
    assert [PenHeight(TravelHeight)] == [PenHeight(TravelHeight)] + [];
  }

  lemma PostambleLine()
    ensures Postamble == Render([PenHeight(LiftHeight)])
  {
    assert Render([]) == "";
    hide Render;
    assert CommandText(PenHeight(LiftHeight)) == "G0 Z15" by { assert NatText(15) == NatText(1) + "5"; }
    RenderCons(PenHeight(LiftHeight), []);
    assert [PenHeight(LiftHeight)] == [PenHeight(LiftHeight)] + [];
  }

  lemma RenderCons(c: Command, cs: seq<Command>)
    ensures Render([c] + cs) == CommandText(c) + "\n" + Render(cs)
  {
    assert ([c] + cs)[1..] == cs;
  }

  /**
   * A generated program reads back as the preamble's commands, a pen-height
   * command and a coordinate command per traced point, and the final lift.
   */
  lemma GenerateParses(doc: string, glyphs: GlyphSource, startx: int, starty: int, size: int)
    requires SourceInBounds(glyphs)
    requires Lay(doc[..Strlen(doc)], glyphs, size, Pen(startx, starty)).Success?
    ensures Generate(doc, glyphs, startx, starty, size).Success?
    ensures Parse(Generate(doc, glyphs, startx, starty, size).value)
         == Some([Home, AbsolutePositioning, Millimetres, PenHeight(TravelHeight)]
                 + MovesCommands(Lay(doc[..Strlen(doc)], glyphs, size, Pen(startx, starty)).value.moves)
                 + [PenHeight(LiftHeight)])
  {
    var moves := Lay(doc[..Strlen(doc)], glyphs, size, Pen(startx, starty)).value.moves;
    var pre := [Home, AbsolutePositioning, Millimetres, PenHeight(TravelHeight)];
    var post := [PenHeight(LiftHeight)];
    BracketCommands();
    MovesTextRenders(moves);
    RenderAppend(pre, MovesCommands(moves));
    RenderAppend(pre + MovesCommands(moves), post);
    RenderRoundTrip(pre + MovesCommands(moves) + post);
  }

  /** The program text of a session fails exactly when a character before the first NUL fails to load. */
  lemma GenerateFailsIff(doc: string, glyphs: GlyphSource, startx: int, starty: int, size: int)
    requires SourceInBounds(glyphs)
    ensures Generate(doc, glyphs, startx, starty, size).Failure?
        <==> exists i :: 0 <= i < Strlen(doc) && Fails(glyphs, doc[i])
  {
    var text := doc[..Strlen(doc)];
    LayFailsIff(text, glyphs, size, Pen(startx, starty));
    assert forall i :: 0 <= i < |text| ==> text[i] == doc[i];
  }

  /** Whatever follows the first NUL of the document is never read. */
  lemma GenerateStopsAtNul(a: string, b: string, glyphs: GlyphSource, startx: int, starty: int, size: int)
    requires SourceInBounds(glyphs) && '\0' !in a
    ensures Generate(a + ['\0'] + b, glyphs, startx, starty, size) == Generate(a, glyphs, startx, starty, size)
  {
    var doc := a + ['\0'] + b;
    assert doc[|a|] == '\0';
    assert Strlen(doc) == |a| by {
      assert forall i :: 0 <= i < |a| ==> doc[i] == a[i] && a[i] != '\0';
    }
    StrlenWithoutNul(a);
    assert doc[..|a|] == a && a[..|a|] == a;
  }

  /** An empty document gives only the preamble and the final lift. */
  lemma GenerateEmpty(glyphs: GlyphSource, startx: int, starty: int, size: int)
    requires SourceInBounds(glyphs)
    ensures Generate("", glyphs, startx, starty, size) == Success("G28\nG90\nG21\nG0 Z2\nG0 Z15\n")
  {
    assert ""[..Strlen("")] == "";
    assert Lay("", glyphs, size, Pen(startx, starty)) == Success(Placed(Pen(startx, starty), []));
    assert MovesText([]) == "";
    assert Preamble + "" + Postamble == "G28\nG90\nG21\nG0 Z2\nG0 Z15\n";
  }

  /**
   * The default session of the program (origin (0, 240), size 5) on the
   * document "A" whose glyph is a single contour of three points: the
   * preamble, a travel to the first point, draws to the other two, the lift.
   */
  lemma TriangleSession(glyphs: GlyphSource)
    requires SourceInBounds(glyphs)
    requires glyphs('A') == Outlined(Outline([Point(0, 0), Point(64, 0), Point(64, 64)], [2]))
    ensures Generate("A", glyphs, 0, 240, 5).Success?
    ensures Parse(Generate("A", glyphs, 0, 240, 5).value)
         == Some([Home, AbsolutePositioning, Millimetres, PenHeight(2),
                  PenHeight(2), Travel(0, 240000),
                  PenHeight(0), Draw(1000, 240000),
                  PenHeight(0), Draw(1000, 241000),
                  PenHeight(15)])
  {
    assert [Home, AbsolutePositioning, Millimetres, PenHeight(TravelHeight)]
         + [PenHeight(2), Travel(0, 240000), PenHeight(0), Draw(1000, 240000), PenHeight(0), Draw(1000, 241000)]
         + [PenHeight(LiftHeight)]
        == [Home, AbsolutePositioning, Millimetres, PenHeight(2),
            PenHeight(2), Travel(0, 240000),
            PenHeight(0), Draw(1000, 240000),
            PenHeight(0), Draw(1000, 241000),
            PenHeight(15)];
    hide *;
    TriangleLayout(glyphs);
    TriangleCommands();
    GenerateParses("A", glyphs, 0, 240, 5);
  }

  lemma TriangleLayout(glyphs: GlyphSource)
    requires SourceInBounds(glyphs)
    requires glyphs('A') == Outlined(Outline([Point(0, 0), Point(64, 0), Point(64, 64)], [2]))
    ensures "A"[..Strlen("A")] == "A"
    ensures Lay("A", glyphs, 5, Pen(0, 240))
         == Success(Placed(Pen(5, 240), [Move(0, 15360, false), Move(64, 15360, true), Move(64, 15424, true)]))
  {
    var ms := [Move(0, 15360, false), Move(64, 15360, true), Move(64, 15424, true)];
    TriangleMoves();
    assert "A"[..Strlen("A")] == "A";
    assert "A"[..0] == "";
    assert Lay("A"[..0], glyphs, 5, Pen(0, 240)) == Success(Placed(Pen(0, 240), []));
    assert CharacterMoves('A', glyphs, 0, 240) == Success(ms);
    assert Place('A', glyphs, 5, Pen(0, 240)) == Success(Placed(Pen(5, 240), ms));
    assert [] + ms == ms;
  }

  lemma TriangleMoves()
    ensures OutlineMoves(Outline([Point(0, 0), Point(64, 0), Point(64, 64)], [2]), 0, 240)
         == [Move(0, 15360, false), Move(64, 15360, true), Move(64, 15424, true)]
  {
    var o := Outline([Point(0, 0), Point(64, 0), Point(64, 64)], [2]);
    var m0, m1, m2 := Move(0, 15360, false), Move(64, 15360, true), Move(64, 15424, true);
    RangeMovesAt(o, 0, 3, 0, 240);
    var r := RangeMoves(o, 0, 3, 0, 240);
    assert |r| == 3 && r[0] == m0 && r[1] == m1 && r[2] == m2;
    assert r == [m0, m1, m2];
    assert ContoursMoves(o, 1, 0, 240) == ContoursMoves(o, 0, 0, 240) + ContourMoves(o, 0, 0, 240);
    assert OutlineMoves(o, 0, 240) == [] + r == r;
  }

  lemma TriangleCommands()
    ensures MovesCommands([Move(0, 15360, false), Move(64, 15360, true), Move(64, 15424, true)])
         == [PenHeight(2), Travel(0, 240000), PenHeight(0), Draw(1000, 240000), PenHeight(0), Draw(1000, 241000)]
  {
    var m0, m1, m2 := Move(0, 15360, false), Move(64, 15360, true), Move(64, 15424, true);
    TrianglePoints();
    MovesCommandsAppend([m0], [m1, m2]);
    MovesCommandsAppend([m1], [m2]);
    assert [m1, m2] == [m1] + [m2] && [m0, m1, m2] == [m0] + [m1, m2];
    assert [m0][..0] == [] && [m1][..0] == [] && [m2][..0] == [];
  }

  /** The rounded coordinates of the three moves of the example. */
  lemma TrianglePoints()
    ensures MoveCommands(Move(0, 15360, false)) == [PenHeight(2), Travel(0, 240000)]
    ensures MoveCommands(Move(64, 15360, true)) == [PenHeight(0), Draw(1000, 240000)]
    ensures MoveCommands(Move(64, 15424, true)) == [PenHeight(0), Draw(1000, 241000)]
  {
    assert RoundSixtyFourths(0) == 0;
    assert RoundSixtyFourths(64) == 1000;
    assert RoundSixtyFourths(15360) == 240000;
    assert RoundSixtyFourths(15424) == 241000;
  }

  // ---------------------------------------------------------------------------
  // The C functions
  // ---------------------------------------------------------------------------

  /**
   * `add_character`: loads the glyph of c and traces it with its origin at
   * (x, y) when it is an outline; a glyph that does not load is reported and
   * nothing is added.
   */
  method AddCharacter(c: char, buf: CommandBuffer, glyphs: GlyphSource, x: int, y: int)
    returns (err: Option<GenerateError>)
    requires SourceInBounds(glyphs) && buf.Valid()
    modifies buf
    ensures buf.Valid()
    ensures match CharacterMoves(c, glyphs, x, y)
            case Failure(e) => err == Some(e) && buf.text == old(buf.text)
            case Success(ms) => err == None && buf.text == old(buf.text) + MovesText(ms)
  {
    var slot := glyphs(c);
    if slot.LoadFailed? {
      return Some(GlyphLoadError(c));
    }
    if slot.Outlined? {
      TraceOutline(slot.outline, x, y, buf);
    } else {
      assert buf.text == old(buf.text) + MovesText([]);
    }
    return None;
  }

  /** The session before its first character: the preamble written, nothing laid out. */
  lemma SessionStart(doc: string, glyphs: GlyphSource, size: int, start: Pen, text: string)
    requires SourceInBounds(glyphs)
    requires text == "" + "G28\n" + "G90\n" + "G21\n" + "G0 Z2\n"
    ensures Lay(doc[..0], glyphs, size, start) == Success(Placed(start, []))
    ensures text == Preamble + MovesText([])
  {
    assert doc[..0] == [];
  }

  /** A newline of the main loop: the pen goes to the start of the next line, nothing is written. */
  lemma NewlineStep(doc: string, i: nat, glyphs: GlyphSource, size: int, start: Pen, pen: Pen, moves: seq<Move>)
    requires SourceInBounds(glyphs) && i < |doc| && doc[i] == '\n'
    requires Lay(doc[..i], glyphs, size, start) == Success(Placed(pen, moves))
    ensures Lay(doc[..i + 1], glyphs, size, start) == Success(Placed(Pen(0, pen.y - 2 * size), moves))
  {
    assert doc[..i + 1][..i] == doc[..i];
    assert moves + [] == moves;
  }

  /** A drawn character of the main loop: the layout grows by its moves and the pen advances. */
  lemma CharacterStep(doc: string, i: nat, glyphs: GlyphSource, size: int, start: Pen, pen: Pen,
                      moves: seq<Move>, traced: seq<Move>)
    requires SourceInBounds(glyphs) && i < |doc| && doc[i] != '\n'
    requires Lay(doc[..i], glyphs, size, start) == Success(Placed(pen, moves))
    requires CharacterMoves(doc[i], glyphs, pen.x, pen.y) == Success(traced)
    ensures Lay(doc[..i + 1], glyphs, size, start) == Success(Placed(Pen(pen.x + size, pen.y), moves + traced))
  {
    assert doc[..i + 1][..i] == doc[..i];
  }

  /** A drawn character of the main loop: the text grows by the text of its moves. */
  lemma TextStep(moves: seq<Move>, traced: seq<Move>, before: string, after: string)
    requires before == Preamble + MovesText(moves)
    requires after == before + MovesText(traced)
    ensures after == Preamble + MovesText(moves + traced)
  {
    hide *;
    MovesTextAppend(moves, traced);
    AppendAssociates(Preamble, MovesText(moves), MovesText(traced));
  }

  /** A character before the first NUL whose glyph does not load ends the session with its error. */
  lemma CharacterFails(doc: string, i: nat, glyphs: GlyphSource, size: int, startx: int, starty: int,
                       pen: Pen, moves: seq<Move>, e: GenerateError)
    requires SourceInBounds(glyphs) && i < Strlen(doc) && doc[i] != '\n'
    requires Lay(doc[..i], glyphs, size, Pen(startx, starty)) == Success(Placed(pen, moves))
    requires CharacterMoves(doc[i], glyphs, pen.x, pen.y) == Failure(e)
    ensures Generate(doc, glyphs, startx, starty, size) == Failure(e)
  {
    var text := doc[..Strlen(doc)];
    assert doc[..i + 1][..i] == doc[..i] && text[..i + 1] == doc[..i + 1];
    LayFailureSticks(text, i + 1, glyphs, size, Pen(startx, starty));
  }

  /** The whole document laid out: the final lift completes the program text. */
  lemma SessionEnd(doc: string, glyphs: GlyphSource, size: int, startx: int, starty: int,
                   p: Placed, before: string, after: string)
    requires SourceInBounds(glyphs)
    requires Lay(doc[..Strlen(doc)], glyphs, size, Pen(startx, starty)) == Success(p)
    requires before == Preamble + MovesText(p.moves)
    requires after == before + "G0 Z15\n"
    ensures Generate(doc, glyphs, startx, starty, size) == Success(after)
  {
  }

  /**
   * `generate_gcode` once the font is open: the preamble, every character of
   * the document up to its first NUL laid out in order, and the final lift;
   * the first glyph that does not load ends the session with an error.
   */
  method GenerateGcode(data: string, glyphs: GlyphSource, startx: int, starty: int, fontSize: int)
    returns (r: Result<string, GenerateError>)
    requires SourceInBounds(glyphs)
    ensures r == Generate(data, glyphs, startx, starty, fontSize)
  {
    hide *;
    var buf := new CommandBuffer();
    buf.Append("G28\n");
    buf.Append("G90\n");
    buf.Append("G21\n");
    buf.Append("G0 Z2\n");
    var x, y := startx, starty;
    var charSpaces := fontSize;
    var newLineSpaces := charSpaces * 2;
    ghost var start := Pen(startx, starty);
    ghost var moves: seq<Move> := [];
    SessionStart(data, glyphs, fontSize, start, buf.text);
    var i := 0;
    while i < Strlen(data)
      invariant 0 <= i <= Strlen(data)
      invariant buf.Valid()
      invariant Lay(data[..i], glyphs, fontSize, start) == Success(Placed(Pen(x, y), moves))
      invariant buf.text == Preamble + MovesText(moves)
    {
      if data[i] == '\n' {
        NewlineStep(data, i, glyphs, fontSize, start, Pen(x, y), moves);
        y := y - newLineSpaces;
        x := 0;
        i := i + 1;
        continue;
      }
      ghost var before := buf.text;
      var err := AddCharacter(data[i], buf, glyphs, x, y);
      if err.Some? {
        CharacterFails(data, i, glyphs, fontSize, startx, starty, Pen(x, y), moves, err.value);
        return Failure(err.value);
      }
      ghost var traced := CharacterMoves(data[i], glyphs, x, y).value;
      CharacterStep(data, i, glyphs, fontSize, start, Pen(x, y), moves, traced);
      TextStep(moves, traced, before, buf.text);
      x := x + charSpaces;
      moves := moves + traced;
      i := i + 1;
    }
    ghost var before := buf.text;
    buf.Append("G0 Z15\n");
    SessionEnd(data, glyphs, fontSize, startx, starty, Placed(Pen(x, y), moves), before, buf.text);
    return Success(buf.text);
  }
}
