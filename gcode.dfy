/**
 * The command vocabulary the generator writes, one command per line: home,
 * absolute positioning, millimetre units, pen height, rapid travel and linear
 * draw. Coordinates are held in thousandths of a millimetre, the resolution of
 * the three-decimal text. Render writes a command list as text; Parse reads it
 * back, so the generated stream can be stated as a list of commands.
 */
module Gcode {
  import opened Wrappers
  import opened Decimal

  datatype Command =
    | Home                   // G28
    | AbsolutePositioning    // G90
    | Millimetres            // G21
    | PenHeight(z: nat)      // G0 Z<z>
    | Travel(x: int, y: int) // G0 X<x> Y<y>, pen up
    | Draw(x: int, y: int)   // G1 X<x> Y<y>, pen down

  /** The text of one command line, without its terminating newline. */
  function CommandText(c: Command): string {
    match c
    case Home => "G28"
    case AbsolutePositioning => "G90"
    case Millimetres => "G21"
    case PenHeight(z) => "G0 Z" + NatText(z)
    case Travel(x, y) => "G0 X" + DecimalText(x) + " Y" + DecimalText(y)
    case Draw(x, y) => "G1 X" + DecimalText(x) + " Y" + DecimalText(y)
  }

  /** No command line holds a newline or a NUL. */
  lemma CommandTextChars(c: Command)
    ensures '\n' !in CommandText(c) && '\0' !in CommandText(c)
  {
    match c
    case Travel(x, y) =>
      CoordinatesExclude("G0 X", x, y, '\n');
      CoordinatesExclude("G0 X", x, y, '\0');
    case Draw(x, y) =>
      CoordinatesExclude("G1 X", x, y, '\n');
      CoordinatesExclude("G1 X", x, y, '\0');
    case _ =>
  }

  /** A character absent from the prefix and from numbers is absent from a coordinate line. */
  lemma CoordinatesExclude(prefix: string, x: int, y: int, c: char)
    requires c !in prefix && !IsDigit(c) && c != '.' && c != '-' && c != ' ' && c != 'Y'
    ensures c !in prefix + DecimalText(x) + " Y" + DecimalText(y)
  {
    DecimalTextChars(x);
    DecimalTextChars(y);
    NumericTextExcludes(DecimalText(x), c);
    NumericTextExcludes(DecimalText(y), c);
    AbsentFromConcat(prefix, DecimalText(x), " Y", DecimalText(y), c);
  }

  lemma AbsentFromConcat(a: string, b: string, c: string, d: string, x: char)
    requires x !in a && x !in b && x !in c && x !in d
    ensures x !in a + b + c + d
  {
  }

  /** A command list as text: every command on its own newline-terminated line. */
  function Render(cs: seq<Command>): string {
    if |cs| == 0 then "" else CommandText(cs[0]) + "\n" + Render(cs[1..])
  }

  lemma {:induction false} RenderAppend(a: seq<Command>, b: seq<Command>)
    ensures Render(a + b) == Render(a) + Render(b)
  {
    if a == [] {
      assert a + b == b;
    } else {
      assert (a + b)[1..] == a[1..] + b;
      RenderAppend(a[1..], b);
    }
  }

  lemma {:induction false} RenderHasNoNul(cs: seq<Command>)
    ensures '\0' !in Render(cs)
  {
    if cs != [] {
      CommandTextChars(cs[0]);
      RenderHasNoNul(cs[1..]);
    }
  }

  /** The index of the first c in s, or |s| when there is none. */
  function IndexOf(s: string, c: char): (k: nat)
    ensures k <= |s|
    ensures c !in s[..k]
    ensures k < |s| ==> s[k] == c
  {
    if |s| == 0 then 0
    else if s[0] == c then 0
    else
      assert s[..1 + IndexOf(s[1..], c)] == [s[0]] + s[1..][..IndexOf(s[1..], c)];
      1 + IndexOf(s[1..], c)
  }

  lemma IndexOfSeparator(a: string, c: char, b: string)
    requires c !in a
    ensures IndexOf(a + [c] + b, c) == |a|
  {
    var s := a + [c] + b;
    assert s[|a|] == c && s[..|a|] == a;
  }

  /** Reads `<x> Y<y>`, the coordinates after ` X`, in thousandths. */
  function ParseCoordinates(s: string): Option<(int, int)> {
    var k := IndexOf(s, ' ');
    if k + 2 <= |s| && s[k + 1] == 'Y' then
      match (ParseDecimal(s[..k]), ParseDecimal(s[k + 2..]))
      case (Some(x), Some(y)) => Some((x, y))
      case _ => None
    else
      None
  }

  /** Reads one command line (without its newline). */
  function ParseCommand(line: string): Option<Command> {
    if line == "G28" then Some(Home)
    else if line == "G90" then Some(AbsolutePositioning)
    else if line == "G21" then Some(Millimetres)
    else if |line| > 4 && line[0] == 'G' && line[2] == ' ' then
      var operands := line[4..];
      if line[1] == '0' && line[3] == 'Z' then
        if AllDigits(operands) then Some(PenHeight(DigitsValue(operands))) else None
      else if (line[1] == '0' || line[1] == '1') && line[3] == 'X' then
        match ParseCoordinates(operands)
        case None => None
        case Some((x, y)) => Some(if line[1] == '0' then Travel(x, y) else Draw(x, y))
      else
        None
    else
      None
  }

  /** Reads a whole stream of newline-terminated command lines. */
  function Parse(text: string): Option<seq<Command>>
    decreases |text|
  {
    if |text| == 0 then Some([])
    else
      var k := IndexOf(text, '\n');
      if k == |text| then None
      else
        match (ParseCommand(text[..k]), Parse(text[k + 1..]))
        case (Some(c), Some(cs)) => Some([c] + cs)
        case _ => None
  }

  lemma CoordinatesRoundTrip(x: int, y: int)
    ensures ParseCoordinates(DecimalText(x) + " Y" + DecimalText(y)) == Some((x, y))
  {
    var dx, dy := DecimalText(x), DecimalText(y);
    var s := dx + " Y" + dy;
    assert s == dx + [' '] + ("Y" + dy);
    DecimalTextChars(x);
    NumericTextExcludes(dx, ' ');
    IndexOfSeparator(dx, ' ', "Y" + dy);
    assert s[..|dx|] == dx && s[|dx| + 2..] == dy;
    DecimalRoundTrip(x);
    DecimalRoundTrip(y);
  }

  lemma PenHeightRoundTrip(z: nat)
    ensures ParseCommand("G0 Z" + NatText(z)) == Some(PenHeight(z))
  {
    var line := "G0 Z" + NatText(z);
    assert line[4..] == NatText(z);
    NatTextValue(z);
  }

  lemma ParseMoveLine(line: string, x: int, y: int)
    requires |line| > 4 && line[0] == 'G' && line[2] == ' ' && line[3] == 'X'
    requires line[1] == '0' || line[1] == '1'
    requires ParseCoordinates(line[4..]) == Some((x, y))
    ensures ParseCommand(line) == Some(if line[1] == '0' then Travel(x, y) else Draw(x, y))
  {
    assert line != "G28" && line != "G90" && line != "G21" by { assert |line| > 3; }
  }

  lemma MoveRoundTrip(g: char, x: int, y: int)
    requires g == '0' || g == '1'
    ensures ParseCommand(['G', g, ' ', 'X'] + DecimalText(x) + " Y" + DecimalText(y))
         == Some(if g == '0' then Travel(x, y) else Draw(x, y))
  {
    var operands := DecimalText(x) + " Y" + DecimalText(y);
    var line := ['G', g, ' ', 'X'] + operands;
    assert line[4..] == operands;
    assert line == ['G', g, ' ', 'X'] + DecimalText(x) + " Y" + DecimalText(y);
    CoordinatesRoundTrip(x, y);
    ParseMoveLine(line, x, y);
  }

  /** ParseCommand inverts CommandText. */
  lemma CommandRoundTrip(c: Command)
    ensures ParseCommand(CommandText(c)) == Some(c)
  {
    match c
    case Home =>
    case AbsolutePositioning =>
    case Millimetres =>
    case PenHeight(z) =>
      PenHeightRoundTrip(z);
    case Travel(x, y) =>
      assert CommandText(c) == ['G', '0', ' ', 'X'] + DecimalText(x) + " Y" + DecimalText(y);
      MoveRoundTrip('0', x, y);
    case Draw(x, y) =>
      assert CommandText(c) == ['G', '1', ' ', 'X'] + DecimalText(x) + " Y" + DecimalText(y);
      MoveRoundTrip('1', x, y);
  }

  /** Parse inverts Render: the text determines the command list. */
  lemma {:induction false} RenderRoundTrip(cs: seq<Command>)
    ensures Parse(Render(cs)) == Some(cs)
  {
    if cs != [] {
      var line := CommandText(cs[0]);
      var text := Render(cs);
      CommandTextChars(cs[0]);
      assert text == line + ['\n'] + Render(cs[1..]);
      IndexOfSeparator(line, '\n', Render(cs[1..]));
      assert text[..|line|] == line && text[|line| + 1..] == Render(cs[1..]);
      CommandRoundTrip(cs[0]);
      RenderRoundTrip(cs[1..]);
      assert [cs[0]] + cs[1..] == cs;
    }
  }
}
