# Text to plotter G-code, verified in Dafny

This project models the generator in `main.c` that turns a text document into G-code for a pen plotter. The generator lays the text out on the page and traces every character's TrueType glyph with the pen. The model covers these functions:

- `add_command_to_gcode`: the growing output buffer.
- `add_movement`: the motion emitter.
- `gcode_from_outline`: the contour tracer.
- `add_character` and `generate_gcode`: page layout and session bracketing.

It keeps the program's own imperative shape. The buffer is a class whose `Append` method changes its text. The two tracer loops, the emitter and the main loop are methods. Each method is proved against a specification function on values, and the properties of the program are proved about those functions.

Modules, one per file:

- `CStrings`: `strlen`. A string is read up to its first NUL.
- `Buffer`: the output buffer, `CommandBuffer`, with `strcat` semantics.
- `Decimal`: `%.3f` on the exact values the program prints. A coordinate is a multiple of 1/64 mm, because FreeType points are 26.6 fixed point.
  - The value is rounded to the nearest thousandth. Exact ties go to the even neighbour, as glibc rounds exactly representable values.
  - The text is an optional minus sign, the integer part, a point and three digits.
  - `ParseDecimal` reads the text back.
- `Gcode`: the command vocabulary the program emits: `G28`, `G90`, `G21`, `G0 Z<h>`, `G0 X.. Y..` and `G1 X.. Y..`. `Render` writes commands one per line and `Parse` reads them back.
- `Motion`: `add_movement`. One move request becomes two lines, the pen height and then the coordinate move.
- `Tracer`: `gcode_from_outline`.
  - Contour i covers the points from `contours[i-1] + 1` (0 for the first contour) to `contours[i]`.
  - The first point of a contour is a pen-up travel. Every later point is a pen-down draw.
  - Each target is the origin plus the point, kept exactly in 1/64 mm.
  - Every point is treated as a vertex, as the source does; on-curve flags are ignored.
- `Layout`: `add_character` and `generate_gcode`.
  - The preamble is `G28`, `G90`, `G21`, `G0 Z2`.
  - The document is walked up to its first NUL. A newline sets x to 0 and lowers y by twice the font size. Any other character has its glyph traced at the pen and then advances x by the font size.
  - The postamble is `G0 Z15`.
  - A glyph that does not load ends the session with an error result.

FreeType appears as a glyph source. This is a function from a character to its loaded glyph slot, for the face and size the session uses. The slot is one of three cases:

- a load error;
- a glyph that is not an outline;
- an outline, made of points in 1/64 units and the end index of each contour.

The tracer indexes points without checking them. The model therefore requires every outline the source yields to satisfy `InBounds`: every contour end lies between -1 and the point count minus one.

## Model

| member | source | states |
|---|---|---|
| Buffer.CommandBuffer.constructor | main.c:87-93 | the buffer starts as the empty C string |
| Buffer.CommandBuffer.Append | main.c:175-186 | the new text is the old text followed by the command up to its first NUL; the old text stays a prefix, the text stays free of NUL, and a command without NUL is appended whole |
| CStrings.Strlen | main.c:104 | the length `strlen` reports is the index of the first NUL, or the whole length when there is none |
| Decimal.RoundSixtyFourths | main.c:150-151 | the printed number of thousandths is within half a thousandth of v/64, a tie goes to the even neighbour, and the sign is kept |
| Decimal.NatTextValue | main.c:168-170 | the digits printed for a natural number read back as that number |
| Decimal.DecimalText | main.c:168-170 | the `%.3f` text of m thousandths: a minus sign when m is negative, the integer part, a point and three digits; its partner is `DecimalRoundTrip` |
| Decimal.Fixed3 | main.c:168-170 | the `%.3f` text of v/64: the rounding of `RoundSixtyFourths` written by `DecimalText` |
| Decimal.DecimalRoundTrip | main.c:168-170 | the `%.3f` text of m thousandths reads back as m, so the text determines the rounded coordinate |
| Gcode.CommandTextChars | main.c:168-170 | no command line contains a newline or a NUL |
| Gcode.RenderAppend | main.c:185 | the text of two command lists one after the other is the concatenation of their texts |
| Gcode.CommandRoundTrip | main.c:167-172 | every command line reads back as the command it was written from |
| Gcode.RenderRoundTrip | main.c:167-172 | a rendered command list reads back as exactly that list, so the output is a sequence of well-formed command lines |
| Motion.MoveText | main.c:167-171 | the text `sprintf` writes for one move, pen down or pen up; its partner is `MoveTextRenders` |
| Motion.MoveTextRenders | main.c:167-171 | the `sprintf` text of a move is two lines: `G0 Z0` then `G1` when the pen is down, `G0 Z2` then `G0` when it is up, at the rounded target; it holds no NUL |
| Motion.MovesCommandsAt | main.c:164-173 | move t of a sequence becomes commands 2t and 2t+1: the pen height (0 down, 2 up), then a draw or travel to its rounded target |
| Motion.MovesTextAppend | main.c:172 | the text of consecutive moves is the concatenation of their texts |
| Motion.AddMovement | main.c:164-173 | the buffer grows by exactly the text of the requested move |
| Tracer.ContourStart | main.c:144 | contour i starts right after the end of contour i - 1, and contour 0 at point 0; in an in-bounds outline the start is between 0 and the point count |
| Tracer.OutlineMoves | main.c:143-160 | the moves `gcode_from_outline` requests: the contours in order, each from its start to its end; its partners are `RangeMovesAt` and `ContoursMovesAt` |
| Tracer.RangeMovesAt | main.c:148-159 | a contour from first to end emits end - first + 1 moves, or none when end < first; move t goes to point first + t at the origin, with the pen up exactly for t = 0 |
| Tracer.ContoursMovesAt | main.c:143-159 | for contour ends that never decrease, the first n contours emit contours[n-1] + 1 moves; move j goes to point j, with the pen up exactly where a contour starts |
| Tracer.TraceContour | main.c:148-160 | the inner loop appends the text of the contour's moves, in point order |
| Tracer.TraceOutline | main.c:141-162 | the buffer grows by the text of the outline's moves, contour by contour |
| Layout.CharacterMoves | main.c:126-138 | the outcome of `add_character`: an error for a glyph that does not load, no moves for a glyph that is not an outline, the outline's moves at (x, y) otherwise |
| Layout.Place | main.c:105-113 | one character of the main loop: a newline moves the pen to x = 0 and 2·size lower; any other character is traced at the pen and advances it by size |
| Layout.Lay | main.c:104-114 | the main loop over a document: the characters placed in order from the start pen, stopping at the first error; its partners are `LayPen`, `LayAppend`, `LayFailsIff` and `LayReportsFirst` |
| Layout.Generate | main.c:95-116 | the whole session: the preamble, the moves of the document up to its first NUL, and the lift, or the first glyph-load error; its partners are `GenerateParses`, `GenerateFailsIff` and `GenerateStopsAtNul` |
| Layout.AddCharacter | main.c:124-139 | a glyph that does not load gives an error and adds nothing; a glyph that is not an outline adds nothing; an outline adds its trace at (x, y) |
| Layout.GenerateGcode | main.c:65-121 | the result is exactly the program text of the document up to its first NUL, or the first glyph-load error |
| Layout.LayPen | main.c:100-114 | after a document the pen is 2·size lower per newline, and size right of the line start per character of the last line; the first line starts at startx and later lines at 0 |
| Layout.LayAppend | main.c:104-114 | laying out a + b lays out a, then b from where a left the pen, with the moves in order; a failure in a is final |
| Layout.LayFailureSticks | main.c:128-131 | once a prefix fails, the whole document fails with the same error |
| Layout.LayFailsIff | main.c:105-131 | the layout fails exactly when some character other than a newline has a glyph that does not load |
| Layout.LayReportsFirst | main.c:104-131 | the error names the first such character |
| Layout.LayReadsOnlyDocumentGlyphs | main.c:105-112 | only the glyphs of the document's non-newline characters affect the result |
| Layout.LayNewlinesOnly | main.c:105-110 | a document of newlines only traces nothing; it ends with x at 0 and y lowered by 2·size per newline |
| Layout.BracketCommands | main.c:95-116 | the preamble is the lines `G28`, `G90`, `G21`, `G0 Z2`, and the postamble is the line `G0 Z15` |
| Layout.GenerateParses | main.c:95-116 | the program text reads back as the preamble commands, then a pen-height command and a coordinate command per traced point, then the final lift |
| Layout.GenerateFailsIff | main.c:104-131 | a session fails exactly when a non-newline character before the first NUL has a glyph that does not load |
| Layout.GenerateStopsAtNul | main.c:104 | nothing after the document's first NUL affects the result |
| Layout.GenerateEmpty | main.c:95-116 | an empty document gives exactly `G28`, `G90`, `G21`, `G0 Z2`, `G0 Z15` |
| Layout.TriangleSession | main.c:35 | with the program's defaults (origin (0, 240), size 5), a one-contour three-point glyph gives the preamble, a travel to (0, 240), draws to (1, 240) and (1, 241), and the lift |

## Left out

- FreeType: library and face initialisation and their `exit(1)` paths, `FT_Set_Char_Size`, `FT_Get_Char_Index`, `FT_Load_Glyph` and the glyph format test. These are a foreign library. They are replaced by the glyph source, which is fixed for the session and already reflects the font size. How a signed `char` maps to a glyph index is part of that source.
- Floating point: the C code divides points by 64.0 into a `float` and adds the integer origin in `float`. The model keeps every target exact in 1/64 mm. The two agree while |point| < 2^24 and |64·origin + point| < 2^24. Single-precision rounding beyond that is not modelled.
- Integer width: the pen position, `font_size * 2` and the buffer size are unbounded integers. The overflow of C's `int` is not modelled.
- The 1024-byte `command` array in `add_movement`: the model's command text has no length bound. Only coordinates with hundreds of digits would overflow that array.
- `malloc`/`realloc` failure and the `exit(1)` that follows them, as memory exhaustion is not part of the model.
- `exit(1)` on a glyph that does not load becomes an error result. The partly filled buffer is discarded.
- The diagnostic `printf` calls, which do not touch the output.
- `main` and `read_document`: argument handling and file input/output. The document is the file's bytes: each element of `doc` is one C `char` (a value below 256), not a decoded Unicode character. A multi-byte UTF-8 character is therefore several lookups and several pen advances, as in the C loop. NUL is handled as `strlen` handles it.
- Tracer.ContoursMovesAt: the point-by-point description is stated only for outlines whose contour ends never decrease. For other in-bounds outlines, the trace is still given exactly by `OutlineMoves`, contour by contour.
