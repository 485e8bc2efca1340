/**
 * The motion emitter (`add_movement`): one move request becomes two command
 * lines, a pen-height line and a coordinate line. Targets are held exactly, in
 * 1/64 mm; the text carries them rounded to thousandths by `%.3f`.
 */
module Motion {
  import opened Decimal
  import opened Gcode
  import opened Buffer

  /** A move request: target in 1/64 mm and whether the pen is down. */
  datatype Move = Move(x: int, y: int, penDown: bool)

  /** Pen heights written before a move: 0 draws, 2 travels. */
  const DrawHeight: nat := 0
  const TravelHeight: nat := 2

  /** The text `sprintf` writes for a move: the format chosen by the pen state. */
  function MoveText(m: Move): string {
    (if m.penDown then "G0 Z0\nG1 X" else "G0 Z2\nG0 X") + Fixed3(m.x) + " Y" + Fixed3(m.y) + "\n"
  }

  /** The two commands of a move: the pen height, then the coordinate move it belongs to. */
  function MoveCommands(m: Move): seq<Command> {
    var x, y := RoundSixtyFourths(m.x), RoundSixtyFourths(m.y);
    if m.penDown then [PenHeight(DrawHeight), Draw(x, y)]
    else [PenHeight(TravelHeight), Travel(x, y)]
  }

  lemma RenderTwo(c0: Command, c1: Command)
    ensures Render([c0, c1]) == CommandText(c0) + "\n" + CommandText(c1) + "\n"
  {
    var t0, t1 := CommandText(c0), CommandText(c1);
    assert [c0, c1][1..] == [c1] && [c1][1..] == [];
    assert Render([c1]) == t1 + "\n" + Render([]);
    assert Render([c1]) == t1 + "\n";
    assert Render([c0, c1]) == t0 + "\n" + (t1 + "\n");
  }

  /** The pen-down `sprintf` text splits into the pen-height line and the draw line. */
  lemma DrawLines(fx: string, fy: string, t0: string, t1: string)
    requires t0 == "G0 Z0" && t1 == "G1 X" + fx + " Y" + fy
    ensures "G0 Z0\nG1 X" + fx + " Y" + fy + "\n" == t0 + "\n" + t1 + "\n"
  {
  }

  /** The pen-up `sprintf` text splits into the pen-height line and the travel line. */
  lemma TravelLines(fx: string, fy: string, t0: string, t1: string)
    requires t0 == "G0 Z2" && t1 == "G0 X" + fx + " Y" + fy
    ensures "G0 Z2\nG0 X" + fx + " Y" + fy + "\n" == t0 + "\n" + t1 + "\n"
  {
  }

  /** The `sprintf` text of a move is its pen-height line followed by its coordinate line. */
  lemma MoveTextLines(m: Move)
    ensures MoveText(m) == CommandText(MoveCommands(m)[0]) + "\n" + CommandText(MoveCommands(m)[1]) + "\n"
  {
    var fx, fy := Fixed3(m.x), Fixed3(m.y);
    var cs := MoveCommands(m);
    var t0, t1 := CommandText(cs[0]), CommandText(cs[1]);
    if m.penDown {
      assert t0 == "G0 Z0" by { assert NatText(0) == "0"; }
      assert t1 == "G1 X" + fx + " Y" + fy;
      DrawLines(fx, fy, t0, t1);
    } else {
      assert t0 == "G0 Z2" by { assert NatText(2) == "2"; }
      assert t1 == "G0 X" + fx + " Y" + fy;
      TravelLines(fx, fy, t0, t1);
    }
  }

  /** The text of a move is exactly its two commands, each on its own line. */
  lemma MoveTextRenders(m: Move)
    ensures MoveText(m) == Render(MoveCommands(m))
    ensures '\0' !in MoveText(m)
  {
    var cs := MoveCommands(m);
    RenderTwo(cs[0], cs[1]);
    assert cs == [cs[0], cs[1]];
    MoveTextLines(m);
    RenderHasNoNul(cs);
  }

  /** The text of a sequence of moves, in order. */
  function MovesText(ms: seq<Move>): string {
    if |ms| == 0 then "" else MovesText(ms[..|ms| - 1]) + MoveText(ms[|ms| - 1])
  }

  /** The commands of a sequence of moves, in order. */
  function MovesCommands(ms: seq<Move>): seq<Command> {
    if |ms| == 0 then [] else MovesCommands(ms[..|ms| - 1]) + MoveCommands(ms[|ms| - 1])
  }

  /** The emitted text of a move sequence reads back as its command list. */
  lemma {:induction false} MovesTextRenders(ms: seq<Move>)
    ensures MovesText(ms) == Render(MovesCommands(ms))
  {
    if ms != [] {
      var init := ms[..|ms| - 1];
      MovesTextRenders(init);
      MoveTextRenders(ms[|ms| - 1]);
      RenderAppend(MovesCommands(init), MoveCommands(ms[|ms| - 1]));
    }
  }

  lemma {:induction false} MovesCommandsAppend(a: seq<Move>, b: seq<Move>)
    ensures MovesCommands(a + b) == MovesCommands(a) + MovesCommands(b)
  {
    if |b| == 0 {
      assert a + b == a;
    } else {
      var c, init := a + b, b[..|b| - 1];
      assert c[..|c| - 1] == a + init && c[|c| - 1] == b[|b| - 1];
      var last := MoveCommands(b[|b| - 1]);
      assert MovesCommands(c) == MovesCommands(a + init) + last;
      assert MovesCommands(b) == MovesCommands(init) + last;
      MovesCommandsAppend(a, init);
      AppendAssociates(MovesCommands(a), MovesCommands(init), last);
    }
  }

  /** The text of consecutive move sequences is the concatenation of their texts. */
  lemma MovesTextAppend(a: seq<Move>, b: seq<Move>)
    ensures MovesText(a + b) == MovesText(a) + MovesText(b)
  {
    MovesTextRenders(a + b);
    MovesTextRenders(a);
    MovesTextRenders(b);
    MovesCommandsAppend(a, b);
    RenderAppend(MovesCommands(a), MovesCommands(b));
  }

  lemma AppendAssociates<T>(a: seq<T>, b: seq<T>, c: seq<T>)
    ensures a + b + c == a + (b + c)
  {
  }

  /** Appending one move's text extends the text of the moves before it. */
  lemma MovesTextSnoc(ms: seq<Move>, m: Move)
    ensures MovesText(ms + [m]) == MovesText(ms) + MoveText(m)
  {
    MovesTextAppend(ms, [m]);
    assert [m][..0] == [];
  }

  /**
   * Every move is a pen-height command immediately followed by its coordinate
   * command: height 2 and a travel when the pen is up, height 0 and a draw
   * when it is down, at the rounded target.
   */
  lemma {:induction false} MovesCommandsAt(ms: seq<Move>, t: nat)
    requires t < |ms|
    ensures |MovesCommands(ms)| == 2 * |ms|
    ensures MovesCommands(ms)[2 * t] == PenHeight(if ms[t].penDown then DrawHeight else TravelHeight)
    ensures MovesCommands(ms)[2 * t + 1]
         == (if ms[t].penDown then Draw(RoundSixtyFourths(ms[t].x), RoundSixtyFourths(ms[t].y))
             else Travel(RoundSixtyFourths(ms[t].x), RoundSixtyFourths(ms[t].y)))
  {
    var init := ms[..|ms| - 1];
    if t < |init| {
      MovesCommandsAt(init, t);
    } else if init != [] {
      MovesCommandsAt(init, 0);
    }
  }

  /** `add_movement`: formats the move and appends it to the buffer. */
  method AddMovement(x: int, y: int, penDown: bool, buf: CommandBuffer)
    requires buf.Valid()
    modifies buf
    ensures buf.Valid()
    ensures buf.text == old(buf.text) + MoveText(Move(x, y, penDown))
  {
    var command;
    if penDown {
      command := "G0 Z0\nG1 X" + Fixed3(x) + " Y" + Fixed3(y) + "\n";
    } else {
      command := "G0 Z2\nG0 X" + Fixed3(x) + " Y" + Fixed3(y) + "\n";
    }
    MoveTextRenders(Move(x, y, penDown));
    buf.Append(command);
  }
}
