/**
 * PixelFont: a monospaced 5x7 bitmap font for the error and diagnostics screens. Each glyph
 * is given as seven rows of five '0'/'1' characters and stored as seven bytes, the leftmost
 * column in the highest of the five low bits. DrawString moves a pen across the screen and
 * draws each character's lit cells as scale x scale squares; Measure gives the size of the
 * box the text occupies.
 */
module PixelFont {
  import opened Paths

  const GlyphW: nat := 5
  const GlyphH: nat := 7
  /** The character drawn for a character the font lacks. */
  const Fallback: char := '?'

  /** The seven row bytes of a glyph. */
  type Glyph = g: seq<bv8> | |g| == GlyphH witness [0, 0, 0, 0, 0, 0, 0]

  /** A row string Add can read: at least five characters, of which the first five count. */
  type Row = r: string | |r| >= GlyphW witness "00000"

  /** The seven row strings Add is given for a glyph. */
  type GlyphRows = rows: seq<Row> | |rows| == GlyphH witness ["00000", "00000", "00000", "00000", "00000", "00000", "00000"]

  // ---------------------------------------------------------------------------
  // Row encoding and decoding
  // ---------------------------------------------------------------------------

  function Bit(c: char): bv8 {
    if c == '1' then 1 else 0
  }

  /** The byte Add's inner loop has built after reading the first n characters of a row. */
  function Packed(r: string, n: nat): bv8
    requires n <= |r|
  {
    if n == 0 then 0 else (Packed(r, n - 1) << 1) | Bit(r[n - 1])
  }

  /** DrawChar's test: is column `col` of the row lit? */
  predicate Lit(bits: bv8, col: nat)
    requires col < GlyphW
  {
    (bits >> (GlyphW - 1 - col)) & 1 != 0
  }

  /** The seven bytes Add stores for a glyph. */
  function EncodeGlyph(rows: seq<Row>): Glyph
    requires |rows| >= GlyphH
  {
    seq(GlyphH, i requires 0 <= i < GlyphH => Packed(rows[i], GlyphW))
  }

  /** After n characters the byte holds at most n bits. */
  lemma {:induction false} PackedBound(r: string, n: nat)
    requires n <= |r| && n <= GlyphW
    ensures Packed(r, n) < (1 as bv8 << n)
  {
    if n > 0 {
      PackedBound(r, n - 1);
    }
  }

  /** After n characters, character j sits at bit n-1-j. */
  lemma {:induction false} PackedBits(r: string, n: nat)
    requires n <= |r| && n <= GlyphW
    ensures forall j :: 0 <= j < n ==> ((Packed(r, n) >> (n - 1 - j)) & 1 != 0 <==> r[j] == '1')
  {
    if n > 0 {
      PackedBits(r, n - 1);
      var p := Packed(r, n - 1);
      forall j | 0 <= j < n
        ensures (Packed(r, n) >> (n - 1 - j)) & 1 != 0 <==> r[j] == '1'
      {
        if j < n - 1 {
          assert (Packed(r, n) >> (n - 1 - j)) & 1 == (p >> (n - 2 - j)) & 1;
        }
      }
    }
  }

  /**
   * Encoding then decoding gives back the row: the stored byte is below 32 and DrawChar lights
   * column `col` exactly when the row string has '1' there.
   */
  lemma RowRoundTrip(r: string)
    requires |r| >= GlyphW
    ensures Packed(r, GlyphW) < 32
    ensures forall col :: 0 <= col < GlyphW ==> (Lit(Packed(r, GlyphW), col) <==> r[col] == '1')
  {
    PackedBound(r, GlyphW);
    PackedBits(r, GlyphW);
  }

  /** A glyph decodes to exactly the '1' cells of its row strings. */
  lemma GlyphRoundTrip(rows: seq<Row>)
    requires |rows| >= GlyphH
    ensures forall row, col :: 0 <= row < GlyphH && 0 <= col < GlyphW ==>
              (Lit(EncodeGlyph(rows)[row], col) <==> rows[row][col] == '1')
  {
    forall row | 0 <= row < GlyphH
      ensures forall col :: 0 <= col < GlyphW ==> (Lit(EncodeGlyph(rows)[row], col) <==> rows[row][col] == '1')
    {
      RowRoundTrip(rows[row]);
    }
  }

  /** Add: encodes the seven row strings into a new seven-byte array and stores it under c. */
  method AddGlyph(g: map<char, Glyph>, c: char, rows: GlyphRows) returns (g': map<char, Glyph>)
    ensures g' == g[c := EncodeGlyph(rows)]
  {
    var arr := new bv8[GlyphH];
    for i := 0 to GlyphH
      invariant forall k :: 0 <= k < i ==> arr[k] == Packed(rows[k], GlyphW)
    {
      var r := rows[i];
      var b: bv8 := 0;
      for j := 0 to GlyphW
        invariant b == Packed(r, j)
      {
        b := b << 1;
        b := b | Bit(r[j]);
      }
      arr[i] := b;
    }
    assert arr[..] == EncodeGlyph(rows);
    g' := g[c := arr[..]];
  }

  /** The glyph Add stores is drawn with a square exactly where its row strings have '1'. */
  lemma EncodedGlyphDrawn(rows: seq<Row>, x: int, y: int, scale: int)
    requires |rows| >= GlyphH && scale > 0
    ensures forall row, col :: 0 <= row < GlyphH && 0 <= col < GlyphW ==>
              (Pixel(x + col * scale, y + row * scale, scale) in GlyphPixels(EncodeGlyph(rows), x, y, scale, GlyphH)
               <==> rows[row][col] == '1')
  {
    GlyphRoundTrip(rows);
    GlyphPixelsExactly(EncodeGlyph(rows), x, y, scale);
  }

  // ---------------------------------------------------------------------------
  // Drawing one glyph
  // ---------------------------------------------------------------------------

  /** One scale x scale square drawn at (x, y). */
  datatype Pixel = Pixel(x: int, y: int, size: int)

  /** The squares of row `row` for columns below n, left to right. */
  function RowPixels(bits: bv8, row: int, x: int, y: int, scale: int, n: nat): seq<Pixel>
    requires n <= GlyphW
  {
    if n == 0 then []
    else RowPixels(bits, row, x, y, scale, n - 1)
         + (if Lit(bits, n - 1) then [Pixel(x + (n - 1) * scale, y + row * scale, scale)] else [])
  }

  /** The squares of the first m rows of a glyph, row by row. */
  function GlyphPixels(rows: seq<bv8>, x: int, y: int, scale: int, m: nat): seq<Pixel>
    requires m <= |rows|
  {
    if m == 0 then []
    else GlyphPixels(rows, x, y, scale, m - 1) + RowPixels(rows[m - 1], m - 1, x, y, scale, GlyphW)
  }

  /** The squares DrawChar draws for glyph g with its top-left corner at (x, y). */
  function GlyphSquares(g: Glyph, x: int, y: int, scale: int): seq<Pixel> {
    GlyphPixels(g, x, y, scale, |g|)
  }

  lemma MulStrict(a: int, b: int, s: int)
    requires s > 0 && a < b
    ensures a * s < b * s
  {
    assert b * s - a * s == (b - a) * s;
  }

  /** Whether the square of column col is drawn: exactly when that bit is lit and col is below n. */
  lemma {:induction false} RowPixelAt(bits: bv8, row: int, x: int, y: int, scale: int, n: nat, col: int)
    requires n <= GlyphW && scale > 0 && 0 <= col < GlyphW
    ensures Pixel(x + col * scale, y + row * scale, scale) in RowPixels(bits, row, x, y, scale, n) <==> col < n && Lit(bits, col)
  {
    if n > 0 {
      RowPixelAt(bits, row, x, y, scale, n - 1, col);
      if col < n - 1 {
        MulStrict(col, n - 1, scale);
      } else if col > n - 1 {
        MulStrict(n - 1, col, scale);
      }
    }
  }

  /** Every square of a row is on that row, of the given size, and within the first n columns. */
  lemma {:induction false} RowPixelsWithin(bits: bv8, row: int, x: int, y: int, scale: int, n: nat)
    requires n <= GlyphW && scale > 0
    ensures forall p :: p in RowPixels(bits, row, x, y, scale, n) ==>
              (p.y == y + row * scale && p.size == scale && x <= p.x && p.x + scale <= x + n * scale)
  {
    if n > 0 {
      RowPixelsWithin(bits, row, x, y, scale, n - 1);
      MulLe(0, n - 1, scale);
      MulLe(n - 1, n, scale);
      assert x + (n - 1) * scale + scale == x + n * scale;
    }
  }

  /** Whether the square of (row, col) is drawn: exactly when that bit is lit and row is below m. */
  lemma {:induction false} GlyphPixelAt(rows: seq<bv8>, x: int, y: int, scale: int, m: nat, row: int, col: int)
    requires m <= |rows| && m <= GlyphH && scale > 0 && 0 <= row < GlyphH && 0 <= col < GlyphW
    ensures Pixel(x + col * scale, y + row * scale, scale) in GlyphPixels(rows, x, y, scale, m) <==> row < m && Lit(rows[row], col)
  {
    if m > 0 {
      GlyphPixelAt(rows, x, y, scale, m - 1, row, col);
      var px := Pixel(x + col * scale, y + row * scale, scale);
      if row == m - 1 {
        RowPixelAt(rows[m - 1], m - 1, x, y, scale, GlyphW, col);
      } else {
        if row < m - 1 {
          MulStrict(row, m - 1, scale);
        } else {
          MulStrict(m - 1, row, scale);
        }
        RowPixelsWithin(rows[m - 1], m - 1, x, y, scale, GlyphW);
        assert px !in RowPixels(rows[m - 1], m - 1, x, y, scale, GlyphW);
      }
    }
  }

  /** Every square of a glyph is of the given size and inside the box of its first m rows. */
  lemma {:induction false} GlyphPixelsWithin(rows: seq<bv8>, x: int, y: int, scale: int, m: nat)
    requires m <= |rows| && m <= GlyphH && scale > 0
    ensures forall p :: p in GlyphPixels(rows, x, y, scale, m) ==>
              (p.size == scale && x <= p.x && p.x + scale <= x + GlyphW * scale && y <= p.y && p.y + scale <= y + m * scale)
  {
    if m > 0 {
      GlyphPixelsWithin(rows, x, y, scale, m - 1);
      RowPixelsWithin(rows[m - 1], m - 1, x, y, scale, GlyphW);
      MulLe(0, m - 1, scale);
      MulLe(m - 1, m, scale);
      assert y + (m - 1) * scale + scale == y + m * scale;
    }
  }

  /** A glyph's squares: the square of (row, col) is drawn exactly when that bit is lit, all inside the 5x7 cell box. */
  lemma GlyphPixelsExactly(rows: seq<bv8>, x: int, y: int, scale: int)
    requires |rows| == GlyphH && scale > 0
    ensures forall row, col :: 0 <= row < GlyphH && 0 <= col < GlyphW ==>
              (Pixel(x + col * scale, y + row * scale, scale) in GlyphPixels(rows, x, y, scale, GlyphH) <==> Lit(rows[row], col))
    ensures forall p :: p in GlyphPixels(rows, x, y, scale, GlyphH) ==>
              (p.size == scale && x <= p.x && p.x + scale <= x + GlyphW * scale && y <= p.y && p.y + scale <= y + GlyphH * scale)
  {
    forall row, col | 0 <= row < GlyphH && 0 <= col < GlyphW
      ensures Pixel(x + col * scale, y + row * scale, scale) in GlyphPixels(rows, x, y, scale, GlyphH) <==> Lit(rows[row], col)
    {
      GlyphPixelAt(rows, x, y, scale, GlyphH, row, col);
    }
    GlyphPixelsWithin(rows, x, y, scale, GlyphH);
  }

  // ---------------------------------------------------------------------------
  // Text layout and measurement
  // ---------------------------------------------------------------------------

  /** A character and the grid cell it occupies: its column on its line and the line's index. */
  datatype Cell = Cell(c: char, col: int, line: int)

  /** A DrawChar call of DrawString: the character and the pen position. */
  datatype Placement = Placement(c: char, x: int, y: int)

  /** The cells of the text with the pen at (col, line): '\r' is skipped, '\n' starts the next line. */
  function Cells(text: string, col: int, line: int): seq<Cell>
    decreases |text|
  {
    if text == [] then []
    else if text[0] == '\r' then Cells(text[1..], col, line)
    else if text[0] == '\n' then Cells(text[1..], 0, line + 1)
    else [Cell(text[0], col, line)] + Cells(text[1..], col + 1, line)
  }

  /** The pen advance per character and per line. */
  function Advance(scale: int): int { (GlyphW + 1) * scale }
  function LineHeight(scale: int): int { (GlyphH + 2) * scale }

  /** Where DrawString puts each cell when it starts at (x0, y0). */
  function Place(cells: seq<Cell>, x0: int, y0: int, scale: int): (r: seq<Placement>)
    ensures |r| == |cells|
    decreases |cells|
  {
    if cells == [] then []
    else [Placement(cells[0].c, x0 + cells[0].col * Advance(scale), y0 + cells[0].line * LineHeight(scale))]
         + Place(cells[1..], x0, y0, scale)
  }

  /** The k-th placement is the k-th cell's column and line times the pen's advances. */
  lemma {:induction false} PlaceAt(cells: seq<Cell>, x0: int, y0: int, scale: int, k: nat)
    requires k < |cells|
    ensures Place(cells, x0, y0, scale)[k]
            == Placement(cells[k].c, x0 + cells[k].col * Advance(scale), y0 + cells[k].line * LineHeight(scale))
    decreases k
  {
    if k > 0 {
      PlaceAt(cells[1..], x0, y0, scale, k - 1);
    }
  }

  /** The DrawChar calls of DrawString(text) at (x0, y0). */
  function Layout(text: string, x0: int, y0: int, scale: int): seq<Placement> {
    Place(Cells(text, 0, 0), x0, y0, scale)
  }

  /** text.Split('\n') */
  function Split(text: string): (lines: seq<string>)
    ensures |lines| >= 1
  {
    if text == [] then [""]
    else
      var rest := Split(text[1..]);
      if text[0] == '\n' then [""] + rest else [[text[0]] + rest[0]] + rest[1..]
  }

  /** The lines joined back with '\n'. */
  function Join(lines: seq<string>): string
    requires |lines| >= 1
  {
    if |lines| == 1 then lines[0] else lines[0] + "\n" + Join(lines[1..])
  }

  /** Splitting on '\n' loses nothing: joining the lines with '\n' gives the text back. */
  lemma {:induction false} SplitJoin(text: string)
    ensures Join(Split(text)) == text
  {
    if text != [] {
      SplitJoin(text[1..]);
      var rest := Split(text[1..]);
      if text[0] == '\n' {
        assert Split(text) == [""] + rest;
        assert (["" ] + rest)[1..] == rest;
      } else {
        JoinPrepend(text[0], rest);
      }
      assert text == [text[0]] + text[1..];
    }
  }

  /** Putting a character in front of the first line puts it in front of the joined text. */
  lemma {:induction false} JoinPrepend(c: char, lines: seq<string>)
    requires |lines| >= 1
    ensures Join([[c] + lines[0]] + lines[1..]) == [c] + Join(lines)
  {
    var first := [c] + lines[0];
    var joined := [first] + lines[1..];
    if |lines| == 1 {
      assert joined == [first];
    } else {
      var tail := "\n" + Join(lines[1..]);
      assert joined[0] == first && joined[1..] == lines[1..];
      assert Join(joined) == first + tail;
      assert Join(lines) == lines[0] + tail;
      assert first + tail == [c] + (lines[0] + tail);
    }
  }


  /** No line of the split holds a '\n'. */
  lemma {:induction false} SplitLinesUnbroken(text: string)
    ensures forall i :: 0 <= i < |Split(text)| ==> '\n' !in Split(text)[i]
  {
    if text != [] {
      SplitLinesUnbroken(text[1..]);
      var rest := Split(text[1..]);
      var lines := Split(text);
      if text[0] == '\n' {
        assert lines == [""] + rest;
      } else {
        assert lines == [[text[0]] + rest[0]] + rest[1..];
        forall i | 0 <= i < |lines|
          ensures '\n' !in lines[i]
        {
          if i > 0 {
            assert lines[i] == rest[i];
          }
        }
      }
    }
  }


  /** The length of the longest line. */
  function MaxLen(lines: seq<string>): nat {
    if lines == [] then 0
    else
      var m := MaxLen(lines[..|lines| - 1]);
      if |lines[|lines| - 1]| > m then |lines[|lines| - 1]| else m
  }

  /** MaxLen is the longest line's length. */
  lemma {:induction false} MaxLenIsMax(lines: seq<string>)
    ensures forall i :: 0 <= i < |lines| ==> |lines[i]| <= MaxLen(lines)
    ensures lines != [] ==> exists i :: 0 <= i < |lines| && |lines[i]| == MaxLen(lines)
  {
    if lines != [] {
      var init := lines[..|lines| - 1];
      MaxLenIsMax(init);
      forall i | 0 <= i < |lines| - 1
        ensures lines[i] == init[i]
      {
      }
      if |lines[|lines| - 1]| <= MaxLen(init) && init != [] {
        var i :| 0 <= i < |init| && |init[i]| == MaxLen(init);
        assert |lines[i]| == MaxLen(lines);
      }
    }
  }

  /**
   * PixelFont.Normalize restricted to upper-casing: both Measure and DrawString work on the
   * normalized text, in which every ASCII letter is a capital.
   */
  function Normalize(s: string): (r: string)
    ensures |r| == |s|
    ensures forall i :: 0 <= i < |s| ==> r[i] == Upper(s[i])
  {
    FoldCaseEach(s);
    FoldCase(s)
  }

  /** The number of '\n' characters in the text. */
  function NewLines(text: string): nat {
    if text == [] then 0 else (if text[0] == '\n' then 1 else 0) + NewLines(text[1..])
  }

  /** Measure(text, scale): the width and height of the box the text occupies. */
  function Size(text: string, scale: int): (int, int) {
    if text == [] then (0, 0)
    else
      var lines := Split(Normalize(text));
      (MaxLen(lines) * Advance(scale), |lines| * LineHeight(scale))
  }

  /** Splitting gives one line more than there are line breaks. */
  lemma {:induction false} SplitCount(text: string)
    ensures |Split(text)| == NewLines(text) + 1
  {
    if text != [] {
      SplitCount(text[1..]);
    }
  }

  /** Upper-casing keeps every line break where it was. */
  lemma {:induction false} NormalizeKeepsNewLines(text: string)
    ensures NewLines(Normalize(text)) == NewLines(text)
  {
    if text != [] {
      NormalizeKeepsNewLines(text[1..]);
      FoldCaseAt(text, 0);
      assert Normalize(text)[1..] == Normalize(text[1..]);
    }
  }

  /** The height Measure reports is one line height per line of the text: one more than its line breaks. */
  lemma MeasureCountsLines(text: string, scale: int)
    requires text != []
    ensures Size(text, scale).1 == (NewLines(text) + 1) * LineHeight(scale)
  {
    SplitCount(Normalize(text));
    NormalizeKeepsNewLines(text);
  }

  /**
   * A cell of DrawString stays inside the lines Measure counts: a cell on line j (counted from
   * the pen's line) has a column below that line's length, plus the starting column on the
   * first line.
   */
  lemma {:induction false} CellWithinLines(text: string, col: int, line: int, k: nat)
    requires col >= 0 && k < |Cells(text, col, line)|
    ensures var cell := Cells(text, col, line)[k];
            && line <= cell.line < line + |Split(text)|
            && 0 <= cell.col < (if cell.line == line then col else 0) + |Split(text)[cell.line - line]|
    decreases |text|
  {
    var cells := Cells(text, col, line);
    var cell := cells[k];
    var j := cell.line - line;
    if text[0] == '\r' {
      assert cells == Cells(text[1..], col, line);
      CellWithinLines(text[1..], col, line, k);
      SplitLine(text, j);
    } else if text[0] == '\n' {
      assert cells == Cells(text[1..], 0, line + 1);
      CellWithinLines(text[1..], 0, line + 1, k);
      SplitLine(text, j);
    } else {
      var tail := Cells(text[1..], col + 1, line);
      assert cells == [Cell(text[0], col, line)] + tail;
      if k > 0 {
        assert cell == tail[k - 1];
        CellWithinLines(text[1..], col + 1, line, k - 1);
      }
      SplitLine(text, j);
    }
  }

  /** Line j of the text against the lines of the text without its first character. */
  lemma {:induction false} SplitLine(text: string, j: int)
    requires text != []
    ensures var lines, rest := Split(text), Split(text[1..]);
            text[0] == '\n' ==>
              |lines| == |rest| + 1 && (0 < j < |lines| ==> lines[j] == rest[j - 1])
    ensures var lines, rest := Split(text), Split(text[1..]);
            text[0] != '\n' ==>
              && |lines| == |rest| && |lines[0]| == |rest[0]| + 1
              && (0 < j < |lines| ==> lines[j] == rest[j])
  {
    var rest := Split(text[1..]);
    if text[0] == '\n' {
      assert Split(text) == [""] + rest;
    } else {
      assert Split(text) == [[text[0]] + rest[0]] + rest[1..];
    }
  }



  /** The k-th glyph DrawString places lies inside the box Measure reports (for a positive scale). */
  lemma PlacementWithinMeasure(text: string, x0: int, y0: int, scale: int, k: nat)
    requires scale > 0 && k < |Layout(Normalize(text), x0, y0, scale)|
    ensures var p := Layout(Normalize(text), x0, y0, scale)[k];
            && x0 <= p.x && p.x + GlyphW * scale <= x0 + Size(text, scale).0
            && y0 <= p.y && p.y + GlyphH * scale <= y0 + Size(text, scale).1
  {
    var t := Normalize(text);
    var cells := Cells(t, 0, 0);
    var lines := Split(t);
    var p := Layout(t, x0, y0, scale)[k];
    var cell := cells[k];
    CellWithinLines(t, 0, 0, k);
    PlaceAt(cells, x0, y0, scale, k);
    MaxLenIsMax(lines);
    assert text != [];
    assert Size(text, scale) == (MaxLen(lines) * Advance(scale), |lines| * LineHeight(scale));
    assert cell.col + 1 <= MaxLen(lines);
    assert p.x == x0 + cell.col * Advance(scale);
    assert p.y == y0 + cell.line * LineHeight(scale);
    GlyphBoxInside(cell.col, MaxLen(lines), GlyphW, Advance(scale), scale);
    GlyphBoxInside(cell.line, |lines|, GlyphH, LineHeight(scale), scale);
  }

  /** Every glyph DrawString places lies inside the box Measure reports (for a positive scale). */
  lemma LayoutWithinMeasure(text: string, x0: int, y0: int, scale: int)
    requires scale > 0
    ensures forall p :: p in Layout(Normalize(text), x0, y0, scale) ==>
              && x0 <= p.x && p.x + GlyphW * scale <= x0 + Size(text, scale).0
              && y0 <= p.y && p.y + GlyphH * scale <= y0 + Size(text, scale).1
  {
    var placements := Layout(Normalize(text), x0, y0, scale);
    forall k | 0 <= k < |placements|
      ensures && x0 <= placements[k].x && placements[k].x + GlyphW * scale <= x0 + Size(text, scale).0
              && y0 <= placements[k].y && placements[k].y + GlyphH * scale <= y0 + Size(text, scale).1
    {
      PlacementWithinMeasure(text, x0, y0, scale, k);
    }
  }

  /** A glyph in cell k of a row of n cells, each `step` wide and `size` of them lit, fits the n cells. */
  lemma GlyphBoxInside(k: int, n: int, size: int, step: int, scale: int)
    requires 0 <= k && k + 1 <= n && 0 <= size && size * scale <= step && scale > 0
    ensures 0 <= k * step && k * step + size * scale <= n * step
  {
    MulLe(0, k, step);
    MulLe(k + 1, n, step);
    assert (k + 1) * step == k * step + step;
  }

  lemma MulLe(a: int, b: int, s: int)
    requires s >= 0 && a <= b
    ensures a * s <= b * s
  {
    assert b * s - a * s == (b - a) * s;
  }

  /**
   * A '\r' anywhere in the text counts in Measure's width but is never drawn: DrawString neither
   * draws it nor moves the pen, so the text is laid out as if the '\r' were not there, while a
   * single line is measured one advance wider for it.
   */
  lemma CarriageReturnMeasuredNotDrawn(a: string, b: string, x0: int, y0: int, scale: int)
    ensures Layout(a + "\r" + b, x0, y0, scale) == Layout(a + b, x0, y0, scale)
    ensures '\n' !in a + b ==> Size(a + "\r" + b, scale).0 == (|a + b| + 1) * Advance(scale)
  {
    CellsSkipCarriageReturn(a, b, 0, 0);
    var t := a + "\r" + b;
    if '\n' !in a + b {
      forall i | 0 <= i < |t|
        ensures Normalize(t)[i] != '\n'
      {
        FoldCaseAt(t, i);
        if i < |a| {
          assert t[i] == (a + b)[i];
        } else if i > |a| {
          assert t[i] == (a + b)[i - 1];
        }
      }
      SplitSingle(Normalize(t));
      var one: seq<string> := [Normalize(t)];
      assert one[..0] == [];
      assert MaxLen(one) == |t|;
      assert t != [];
      assert Size(t, scale).0 == |t| * Advance(scale);
    }
  }

  /** Removing a '\r' changes none of the cells. */
  lemma {:induction false} CellsSkipCarriageReturn(a: string, b: string, col: int, line: int)
    ensures Cells(a + "\r" + b, col, line) == Cells(a + b, col, line)
    decreases |a|
  {
    if a == [] {
      assert a + "\r" + b == "\r" + b && a + b == b;
      assert ("\r" + b)[1..] == b;
    } else {
      assert (a + "\r" + b)[0] == (a + b)[0] == a[0];
      assert (a + "\r" + b)[1..] == a[1..] + "\r" + b;
      assert (a + b)[1..] == a[1..] + b;
      if a[0] == '\r' {
        CellsSkipCarriageReturn(a[1..], b, col, line);
      } else if a[0] == '\n' {
        CellsSkipCarriageReturn(a[1..], b, 0, line + 1);
      } else {
        CellsSkipCarriageReturn(a[1..], b, col + 1, line);
      }
    }
  }

  /** A text without '\n' is a single line. */
  lemma {:induction false} SplitSingle(t: string)
    requires forall i :: 0 <= i < |t| ==> t[i] != '\n'
    ensures Split(t) == [t]
  {
    if t != [] {
      SplitSingle(t[1..]);
      assert [t[0]] + t[1..] == t;
    }
  }


  // ---------------------------------------------------------------------------
  // The font object
  // ---------------------------------------------------------------------------

  /** Every glyph of the dictionary is the encoding of the row strings Add is given for its character. */
  predicate AddedFromRows(g: map<char, Glyph>) {
    forall k :: k in g ==> g[k] == EncodeGlyph(RowsOf(k))
  }

  /** A group of Add calls that stores the encoding of each of its characters' rows keeps every glyph encoded from its rows. */
  lemma GroupAddedFromRows(g0: map<char, Glyph>, g: map<char, Glyph>, group: set<char>)
    requires AddedFromRows(g0)
    requires forall k :: k in g <==> k in g0 || k in group
    requires forall k :: k in g ==> g[k] == if k in group then EncodeGlyph(RowsOf(k)) else g0[k]
    ensures AddedFromRows(g)
  {
  }

  /** A dictionary DrawChar can read: the fallback is present. */
  predicate Complete(glyphs: map<char, Glyph>) {
    Fallback in glyphs
  }

  /** The characters the font has a glyph for, in the groups BuildGlyphs adds them. */
  const SymbolChars: set<char> := {' ', '?', '!', '.', ':', '-', '_', '/', '\\', '[', ']', '(', ')', '#', '+', '='}
  const DigitChars: set<char> := {'0', '1', '2', '3', '4', '5', '6', '7', '8', '9'}
  const LettersAToM: set<char> := {'A', 'B', 'C', 'D', 'E', 'F', 'G', 'H', 'I', 'J', 'K', 'L', 'M'}
  const LettersNToZ: set<char> := {'N', 'O', 'P', 'Q', 'R', 'S', 'T', 'U', 'V', 'W', 'X', 'Y', 'Z'}
  const ExtraChars: set<char> := {'%', ',', ';'}
  const GlyphChars: set<char> := SymbolChars + DigitChars + LettersAToM + LettersNToZ + ExtraChars

  /** The row strings of the '?' glyph, drawn for every character the font lacks. */
  const FallbackRows: GlyphRows := ["01110", "10001", "00010", "00100", "00100", "00000", "00100"]

  /**
   * The row strings BuildGlyphs passes to Add for c, in the order of its Add calls; the
   * fallback's rows for a character it does not add.
   */
  function RowsOf(c: char): GlyphRows {
    if c in SymbolChars then SymbolRows(c)
    else if c in DigitChars then DigitRows(c)
    else if c in LettersAToM then LetterRowsAToM(c)
    else if c in LettersNToZ then LetterRowsNToZ(c)
    else if c in ExtraChars then ExtraRows(c)
    else FallbackRows
  }

  /** The rows of the punctuation and symbols. */
  function SymbolRows(c: char): GlyphRows {
    match c
    case ' ' => ["00000", "00000", "00000", "00000", "00000", "00000", "00000"]
    case '?' => FallbackRows
    case '!' => ["00100", "00100", "00100", "00100", "00100", "00000", "00100"]
    case '.' => ["00000", "00000", "00000", "00000", "00000", "00110", "00110"]
    case ':' => ["00000", "00110", "00110", "00000", "00110", "00110", "00000"]
    case '-' => ["00000", "00000", "00000", "01110", "00000", "00000", "00000"]
    case '_' => ["00000", "00000", "00000", "00000", "00000", "00000", "11111"]
    case '/' => ["00001", "00010", "00100", "01000", "10000", "00000", "00000"]
    case '\\' => ["10000", "01000", "00100", "00010", "00001", "00000", "00000"]
    case '[' => ["01110", "01000", "01000", "01000", "01000", "01000", "01110"]
    case ']' => ["01110", "00010", "00010", "00010", "00010", "00010", "01110"]
    case '(' => ["00010", "00100", "01000", "01000", "01000", "00100", "00010"]
    case ')' => ["01000", "00100", "00010", "00010", "00010", "00100", "01000"]
    case '#' => ["01010", "11111", "01010", "01010", "11111", "01010", "01010"]
    case '+' => ["00000", "00100", "00100", "11111", "00100", "00100", "00000"]
    case '=' => ["00000", "11111", "00000", "11111", "00000", "00000", "00000"]
    case _ => FallbackRows
  }

  /** The rows of the digits. */
  function DigitRows(c: char): GlyphRows {
    match c
    case '0' => ["01110", "10001", "10011", "10101", "11001", "10001", "01110"]
    case '1' => ["00100", "01100", "00100", "00100", "00100", "00100", "01110"]
    case '2' => ["01110", "10001", "00001", "00010", "00100", "01000", "11111"]
    case '3' => ["11110", "00001", "00001", "01110", "00001", "00001", "11110"]
    case '4' => ["00010", "00110", "01010", "10010", "11111", "00010", "00010"]
    case '5' => ["11111", "10000", "10000", "11110", "00001", "00001", "11110"]
    case '6' => ["01110", "10000", "10000", "11110", "10001", "10001", "01110"]
    case '7' => ["11111", "00001", "00010", "00100", "01000", "01000", "01000"]
    case '8' => ["01110", "10001", "10001", "01110", "10001", "10001", "01110"]
    case '9' => ["01110", "10001", "10001", "01111", "00001", "00001", "01110"]
    case _ => FallbackRows
  }

  /** The rows of the letters 'A' to 'M'. */
  function LetterRowsAToM(c: char): GlyphRows {
    match c
    case 'A' => ["01110", "10001", "10001", "11111", "10001", "10001", "10001"]
    case 'B' => ["11110", "10001", "10001", "11110", "10001", "10001", "11110"]
    case 'C' => ["01110", "10001", "10000", "10000", "10000", "10001", "01110"]
    case 'D' => ["11100", "10010", "10001", "10001", "10001", "10010", "11100"]
    case 'E' => ["11111", "10000", "10000", "11110", "10000", "10000", "11111"]
    case 'F' => ["11111", "10000", "10000", "11110", "10000", "10000", "10000"]
    case 'G' => ["01110", "10001", "10000", "10111", "10001", "10001", "01111"]
    case 'H' => ["10001", "10001", "10001", "11111", "10001", "10001", "10001"]
    case 'I' => ["01110", "00100", "00100", "00100", "00100", "00100", "01110"]
    case 'J' => ["00111", "00010", "00010", "00010", "00010", "10010", "01100"]
    case 'K' => ["10001", "10010", "10100", "11000", "10100", "10010", "10001"]
    case 'L' => ["10000", "10000", "10000", "10000", "10000", "10000", "11111"]
    case 'M' => ["10001", "11011", "10101", "10101", "10001", "10001", "10001"]
    case _ => FallbackRows
  }

  /** The rows of the letters 'N' to 'Z'. */
  function LetterRowsNToZ(c: char): GlyphRows {
    match c
    case 'N' => ["10001", "11001", "10101", "10011", "10001", "10001", "10001"]
    case 'O' => ["01110", "10001", "10001", "10001", "10001", "10001", "01110"]
    case 'P' => ["11110", "10001", "10001", "11110", "10000", "10000", "10000"]
    case 'Q' => ["01110", "10001", "10001", "10001", "10101", "10010", "01101"]
    case 'R' => ["11110", "10001", "10001", "11110", "10100", "10010", "10001"]
    case 'S' => ["01111", "10000", "10000", "01110", "00001", "00001", "11110"]
    case 'T' => ["11111", "00100", "00100", "00100", "00100", "00100", "00100"]
    case 'U' => ["10001", "10001", "10001", "10001", "10001", "10001", "01110"]
    case 'V' => ["10001", "10001", "10001", "10001", "10001", "01010", "00100"]
    case 'W' => ["10001", "10001", "10001", "10101", "10101", "10101", "01010"]
    case 'X' => ["10001", "10001", "01010", "00100", "01010", "10001", "10001"]
    case 'Y' => ["10001", "10001", "01010", "00100", "00100", "00100", "00100"]
    case 'Z' => ["11111", "00001", "00010", "00100", "01000", "10000", "11111"]
    case _ => FallbackRows
  }

  /** The rows of the characters added last. */
  function ExtraRows(c: char): GlyphRows {
    match c
    case '%' => ["11001", "11010", "00100", "01000", "10110", "00110", "00000"]
    case ',' => ["00000", "00000", "00000", "00000", "00110", "00110", "01100"]
    case ';' => ["00000", "00110", "00110", "00000", "00110", "00110", "01100"]
    case _ => FallbackRows
  }

  /** Every capital letter and digit has a glyph of its own, so normalized letters never fall back to '?'. */
  lemma LettersAndDigitsCovered()
    ensures forall c :: ('A' <= c <= 'Z' || '0' <= c <= '9') ==> c in GlyphChars
  {
    GroupsCovered();
  }

  lemma GroupsCovered()
    ensures forall c :: 'A' <= c <= 'M' ==> c in LettersAToM
    ensures forall c :: 'N' <= c <= 'Z' ==> c in LettersNToZ
    ensures forall c :: '0' <= c <= '9' ==> c in DigitChars
  {
    assert forall c :: 'A' <= c <= 'M' ==> c in LettersAToM;
    assert forall c :: 'N' <= c <= 'Z' ==> c in LettersNToZ;
  }

  /** The glyph DrawChar draws for ch: its own, or the fallback's when the font lacks it. */
  function GlyphOf(glyphs: map<char, Glyph>, ch: char): Glyph
    requires Complete(glyphs)
  {
    if ch in glyphs then glyphs[ch] else glyphs[Fallback]
  }

  /** A character BuildGlyphs does not add has the '?' rows, which are also the rows of '?'. */
  lemma MissingCharRows(ch: char)
    requires ch !in GlyphChars
    ensures RowsOf(ch) == FallbackRows == RowsOf(Fallback)
  {
    assert Fallback in SymbolChars;
  }

  /**
   * In the dictionary BuildGlyphs returns, the glyph DrawChar picks for any character is the
   * encoding of that character's row strings, or of the '?' rows for a character the font
   * lacks: every stored byte is below 32, and a cell is lit exactly where the row string has '1'.
   */
  lemma FontGlyphsFromRows(glyphs: map<char, Glyph>, ch: char)
    requires Complete(glyphs) && AddedFromRows(glyphs)
    requires forall k :: k in glyphs <==> k in GlyphChars
    ensures GlyphOf(glyphs, ch) == EncodeGlyph(RowsOf(ch))
    ensures ch !in GlyphChars ==> GlyphOf(glyphs, ch) == EncodeGlyph(FallbackRows)
    ensures forall row :: 0 <= row < GlyphH ==> GlyphOf(glyphs, ch)[row] < 32
    ensures forall row, col :: 0 <= row < GlyphH && 0 <= col < GlyphW ==>
              (Lit(GlyphOf(glyphs, ch)[row], col) <==> RowsOf(ch)[row][col] == '1')
  {
    if ch !in GlyphChars {
      MissingCharRows(ch);
      assert Fallback in SymbolChars;
    }
    var rows := RowsOf(ch);
    forall row | 0 <= row < GlyphH
      ensures EncodeGlyph(rows)[row] < 32
    {
      RowRoundTrip(rows[row]);
    }
    GlyphRoundTrip(rows);
  }

  /**
   * With BuildGlyphs' dictionary, DrawChar draws a square at cell (row, col) of a character
   * exactly where that character's row string (the '?' rows for a character the font lacks)
   * has a '1'.
   */
  lemma FontCharDrawn(glyphs: map<char, Glyph>, ch: char, x: int, y: int, scale: int)
    requires Complete(glyphs) && AddedFromRows(glyphs)
    requires forall k :: k in glyphs <==> k in GlyphChars
    requires scale > 0
    ensures forall row, col :: 0 <= row < GlyphH && 0 <= col < GlyphW ==>
              (Pixel(x + col * scale, y + row * scale, scale) in GlyphSquares(GlyphOf(glyphs, ch), x, y, scale)
               <==> RowsOf(ch)[row][col] == '1')
  {
    FontGlyphsFromRows(glyphs, ch);
    EncodedGlyphDrawn(RowsOf(ch), x, y, scale);
  }

  /** The squares DrawChar draws for each placement, in order. */
  function Rendered(glyphs: map<char, Glyph>, placements: seq<Placement>, scale: int): seq<Pixel>
    requires Complete(glyphs)
  {
    if placements == [] then []
    else
      var last := placements[|placements| - 1];
      Rendered(glyphs, placements[..|placements| - 1], scale) + GlyphSquares(GlyphOf(glyphs, last.c), last.x, last.y, scale)
  }

  /** The placements of the first cells followed by those of the rest. */
  lemma PlaceCons(c: Cell, rest: seq<Cell>, x0: int, y0: int, scale: int)
    ensures Place([c] + rest, x0, y0, scale)
            == [Placement(c.c, x0 + c.col * Advance(scale), y0 + c.line * LineHeight(scale))] + Place(rest, x0, y0, scale)
  {
    assert ([c] + rest)[1..] == rest;
  }

  /** One step of DrawString's pen over the character at index i. */
  lemma CellsAt(t: string, i: nat, col: int, line: int)
    requires i < |t|
    ensures t[i] == '\r' ==> Cells(t[i..], col, line) == Cells(t[i + 1..], col, line)
    ensures t[i] == '\n' ==> Cells(t[i..], col, line) == Cells(t[i + 1..], 0, line + 1)
    ensures t[i] != '\r' && t[i] != '\n' ==>
              Cells(t[i..], col, line) == [Cell(t[i], col, line)] + Cells(t[i + 1..], col + 1, line)
  {
    assert t[i..][1..] == t[i + 1..];
  }

  /** DrawString's pen over a '\r': nothing placed, the pen stays. */
  lemma SkipStep(t: string, i: nat, col: int, line: int, x0: int, y0: int, scale: int,
                 done: seq<Placement>, target: seq<Placement>)
    requires i < |t| && t[i] == '\r'
    requires done + Place(Cells(t[i..], col, line), x0, y0, scale) == target
    ensures done + Place(Cells(t[i + 1..], col, line), x0, y0, scale) == target
  {
    CellsAt(t, i, col, line);
  }

  /** DrawString's pen over a '\n': nothing placed, the pen returns to the margin one line lower. */
  lemma NewLineStep(t: string, i: nat, col: int, line: int, x0: int, y0: int, scale: int,
                    done: seq<Placement>, target: seq<Placement>)
    requires i < |t| && t[i] == '\n'
    requires done + Place(Cells(t[i..], col, line), x0, y0, scale) == target
    ensures done + Place(Cells(t[i + 1..], 0, line + 1), x0, y0, scale) == target
    ensures y0 + line * LineHeight(scale) + LineHeight(scale) == y0 + (line + 1) * LineHeight(scale)
    ensures x0 == x0 + 0 * Advance(scale)
  {
    CellsAt(t, i, col, line);
  }

  /** DrawString's pen over any other character, at (x, y): it is placed there and the pen moves one advance right. */
  lemma PenStep(t: string, i: nat, col: int, line: int, x0: int, y0: int, scale: int, x: int, y: int,
                done: seq<Placement>, target: seq<Placement>)
    requires i < |t| && t[i] != '\r' && t[i] != '\n'
    requires x == x0 + col * Advance(scale) && y == y0 + line * LineHeight(scale)
    requires done + Place(Cells(t[i..], col, line), x0, y0, scale) == target
    ensures (done + [Placement(t[i], x, y)]) + Place(Cells(t[i + 1..], col + 1, line), x0, y0, scale) == target
    ensures x + Advance(scale) == x0 + (col + 1) * Advance(scale)
  {
    var p := Placement(t[i], x, y);
    CellsAt(t, i, col, line);
    PlaceCons(Cell(t[i], col, line), Cells(t[i + 1..], col + 1, line), x0, y0, scale);
    var rest := Place(Cells(t[i + 1..], col + 1, line), x0, y0, scale);
    assert (done + [p]) + rest == done + ([p] + rest);
    assert (col + 1) * Advance(scale) == col * Advance(scale) + Advance(scale);
  }

  /** Drawing one more placement appends its glyph's squares. */
  lemma RenderedSnoc(glyphs: map<char, Glyph>, placements: seq<Placement>, p: Placement, scale: int)
    requires Complete(glyphs)
    ensures Rendered(glyphs, placements + [p], scale)
            == Rendered(glyphs, placements, scale) + GlyphSquares(GlyphOf(glyphs, p.c), p.x, p.y, scale)
  {
    assert (placements + [p])[..|placements|] == placements;
  }

  /** Every square DrawString draws lies inside the box Measure reports (for a positive scale). */
  lemma DrawingWithinMeasure(glyphs: map<char, Glyph>, text: string, x0: int, y0: int, scale: int)
    requires Complete(glyphs) && scale > 0
    ensures forall p :: p in Rendered(glyphs, Layout(Normalize(text), x0, y0, scale), scale) ==>
              && x0 <= p.x && p.x + p.size <= x0 + Size(text, scale).0
              && y0 <= p.y && p.y + p.size <= y0 + Size(text, scale).1
  {
    LayoutWithinMeasure(text, x0, y0, scale);
    RenderedWithin(glyphs, Layout(Normalize(text), x0, y0, scale), scale,
                   x0, x0 + Size(text, scale).0, y0, y0 + Size(text, scale).1);
  }

  /** Squares drawn for placements whose glyph cells fit a box fit the box. */
  lemma {:induction false} RenderedWithin(glyphs: map<char, Glyph>, placements: seq<Placement>, scale: int,
                                          left: int, right: int, top: int, bottom: int)
    requires Complete(glyphs) && scale > 0
    requires forall p :: p in placements ==>
               left <= p.x && p.x + GlyphW * scale <= right && top <= p.y && p.y + GlyphH * scale <= bottom
    ensures forall q :: q in Rendered(glyphs, placements, scale) ==>
              left <= q.x && q.x + q.size <= right && top <= q.y && q.y + q.size <= bottom
  {
    if placements != [] {
      var last := placements[|placements| - 1];
      var init := placements[..|placements| - 1];
      assert forall p :: p in init ==> p in placements;
      RenderedWithin(glyphs, init, scale, left, right, top, bottom);
      GlyphPixelsExactly(GlyphOf(glyphs, last.c), last.x, last.y, scale);
    }
  }

  /** A lower-case letter is drawn with the glyph of its capital. */
  lemma LowerCaseDrawnAsCapital(glyphs: map<char, Glyph>, c: char, x0: int, y0: int, scale: int)
    requires Complete(glyphs) && 'a' <= c <= 'z'
    ensures Layout(Normalize([c]), x0, y0, scale) == [Placement(Upper(c), x0, y0)]
    ensures Rendered(glyphs, Layout(Normalize([c]), x0, y0, scale), scale)
            == GlyphPixels(GlyphOf(glyphs, Upper(c)), x0, y0, scale, GlyphH)
  {
    FoldCaseAt([c], 0);
    var t := Normalize([c]);
    assert t == [Upper(c)];
    assert Cells(t, 0, 0) == [Cell(Upper(c), 0, 0)] by {
      assert t[1..] == [];
    }
  }

  /** PixelFont: the glyph dictionary, built once by the constructor. */
  class PixelFont {
    const glyphs: map<char, Glyph>

    constructor()
      ensures Complete(glyphs)
      ensures forall k :: k in glyphs <==> k in GlyphChars
      ensures AddedFromRows(glyphs)
    {
      var g := BuildGlyphs();
      glyphs := g;
    }

    /** BuildGlyphs: the dictionary of every glyph the font draws, each stored by Add. */
    static method BuildGlyphs() returns (g: map<char, Glyph>)
      ensures Complete(g)
      ensures forall k :: k in g <==> k in GlyphChars
      ensures AddedFromRows(g)
    {
      g := map[];
      ghost var g0 := g;
      g := AddSymbols(g);
      GroupAddedFromRows(g0, g, SymbolChars);
      g0 := g;
      g := AddDigits(g);
      GroupAddedFromRows(g0, g, DigitChars);
      g0 := g;
      g := AddLettersAToM(g);
      GroupAddedFromRows(g0, g, LettersAToM);
      g0 := g;
      g := AddLettersNToZ(g);
      GroupAddedFromRows(g0, g, LettersNToZ);
      g0 := g;
      g := AddExtras(g);
      GroupAddedFromRows(g0, g, ExtraChars);
      assert Fallback in SymbolChars;
    }

    /** The Add calls for the punctuation and symbols. */
    static method AddSymbols(g0: map<char, Glyph>) returns (g: map<char, Glyph>)
      ensures forall k :: k in g <==> k in g0 || k in SymbolChars
      ensures forall k :: k in g ==> g[k] == if k in SymbolChars then EncodeGlyph(RowsOf(k)) else g0[k]
    {
      g := g0;
      g := AddGlyph(g, ' ', RowsOf(' '));
      g := AddGlyph(g, '?', RowsOf('?'));
      g := AddGlyph(g, '!', RowsOf('!'));
      g := AddGlyph(g, '.', RowsOf('.'));
      g := AddGlyph(g, ':', RowsOf(':'));
      g := AddGlyph(g, '-', RowsOf('-'));
      g := AddGlyph(g, '_', RowsOf('_'));
      g := AddGlyph(g, '/', RowsOf('/'));
      g := AddGlyph(g, '\\', RowsOf('\\'));
      g := AddGlyph(g, '[', RowsOf('['));
      g := AddGlyph(g, ']', RowsOf(']'));
      g := AddGlyph(g, '(', RowsOf('('));
      g := AddGlyph(g, ')', RowsOf(')'));
      g := AddGlyph(g, '#', RowsOf('#'));
      g := AddGlyph(g, '+', RowsOf('+'));
      g := AddGlyph(g, '=', RowsOf('='));
    }

    /** The Add calls for the digits. */
    static method AddDigits(g0: map<char, Glyph>) returns (g: map<char, Glyph>)
      ensures forall k :: k in g <==> k in g0 || k in DigitChars
      ensures forall k :: k in g ==> g[k] == if k in DigitChars then EncodeGlyph(RowsOf(k)) else g0[k]
    {
      g := g0;
      g := AddGlyph(g, '0', RowsOf('0'));
      g := AddGlyph(g, '1', RowsOf('1'));
      g := AddGlyph(g, '2', RowsOf('2'));
      g := AddGlyph(g, '3', RowsOf('3'));
      g := AddGlyph(g, '4', RowsOf('4'));
      g := AddGlyph(g, '5', RowsOf('5'));
      g := AddGlyph(g, '6', RowsOf('6'));
      g := AddGlyph(g, '7', RowsOf('7'));
      g := AddGlyph(g, '8', RowsOf('8'));
      g := AddGlyph(g, '9', RowsOf('9'));
    }

    /** The Add calls for the capitals A to M. */
    static method AddLettersAToM(g0: map<char, Glyph>) returns (g: map<char, Glyph>)
      ensures forall k :: k in g <==> k in g0 || k in LettersAToM
      ensures forall k :: k in g ==> g[k] == if k in LettersAToM then EncodeGlyph(RowsOf(k)) else g0[k]
    {
      g := g0;
      g := AddGlyph(g, 'A', RowsOf('A'));
      g := AddGlyph(g, 'B', RowsOf('B'));
      g := AddGlyph(g, 'C', RowsOf('C'));
      g := AddGlyph(g, 'D', RowsOf('D'));
      g := AddGlyph(g, 'E', RowsOf('E'));
      g := AddGlyph(g, 'F', RowsOf('F'));
      g := AddGlyph(g, 'G', RowsOf('G'));
      g := AddGlyph(g, 'H', RowsOf('H'));
      g := AddGlyph(g, 'I', RowsOf('I'));
      g := AddGlyph(g, 'J', RowsOf('J'));
      g := AddGlyph(g, 'K', RowsOf('K'));
      g := AddGlyph(g, 'L', RowsOf('L'));
      g := AddGlyph(g, 'M', RowsOf('M'));
    }

    /** The Add calls for the capitals N to Z. */
    static method AddLettersNToZ(g0: map<char, Glyph>) returns (g: map<char, Glyph>)
      ensures forall k :: k in g <==> k in g0 || k in LettersNToZ
      ensures forall k :: k in g ==> g[k] == if k in LettersNToZ then EncodeGlyph(RowsOf(k)) else g0[k]
    {
      g := g0;
      g := AddGlyph(g, 'N', RowsOf('N'));
      g := AddGlyph(g, 'O', RowsOf('O'));
      g := AddGlyph(g, 'P', RowsOf('P'));
      g := AddGlyph(g, 'Q', RowsOf('Q'));
      g := AddGlyph(g, 'R', RowsOf('R'));
      g := AddGlyph(g, 'S', RowsOf('S'));
      g := AddGlyph(g, 'T', RowsOf('T'));
      g := AddGlyph(g, 'U', RowsOf('U'));
      g := AddGlyph(g, 'V', RowsOf('V'));
      g := AddGlyph(g, 'W', RowsOf('W'));
      g := AddGlyph(g, 'X', RowsOf('X'));
      g := AddGlyph(g, 'Y', RowsOf('Y'));
      g := AddGlyph(g, 'Z', RowsOf('Z'));
    }

    /** The Add calls for the percent sign, comma and semicolon. */
    static method AddExtras(g0: map<char, Glyph>) returns (g: map<char, Glyph>)
      ensures forall k :: k in g <==> k in g0 || k in ExtraChars
      ensures forall k :: k in g ==> g[k] == if k in ExtraChars then EncodeGlyph(RowsOf(k)) else g0[k]
    {
      g := g0;
      g := AddGlyph(g, '%', RowsOf('%'));
      g := AddGlyph(g, ',', RowsOf(','));
      g := AddGlyph(g, ';', RowsOf(';'));
    }

    /** DrawChar: the squares of the lit cells of ch's glyph (or of '?'), with the glyph's top-left at (x, y). */
    method DrawChar(ch: char, x: int, y: int, scale: int) returns (pixels: seq<Pixel>)
      requires Complete(glyphs)
      ensures pixels == GlyphSquares(GlyphOf(glyphs, ch), x, y, scale)
    {
      var rows := if ch in glyphs then glyphs[ch] else glyphs[Fallback];
      pixels := [];
      for row := 0 to GlyphH
        invariant pixels == GlyphPixels(rows, x, y, scale, row)
      {
        var bits := rows[row];
        ghost var before := pixels;
        for col := 0 to GlyphW
          invariant pixels == before + RowPixels(bits, row, x, y, scale, col)
        {
          if Lit(bits, col) {
            pixels := pixels + [Pixel(x + col * scale, y + row * scale, scale)];
          }
        }
      }
    }

    /** Measure: the widest line and the number of lines, in pixels; (0, 0) for empty text. */
    method Measure(text: string, scale: int) returns (w: int, h: int)
      ensures (w, h) == Size(text, scale)
    {
      if text == [] {
        return 0, 0;
      }
      var t := Normalize(text);
      var lines := Split(t);
      var max := 0;
      for i := 0 to |lines|
        invariant max == MaxLen(lines[..i])
      {
        assert lines[..i + 1][..i] == lines[..i];
        if |lines[i]| > max {
          max := |lines[i]|;
        }
      }
      assert lines[..|lines|] == lines;
      w := max * Advance(scale);
      h := |lines| * LineHeight(scale);
    }

    /**
     * DrawString: the DrawChar calls made while the pen moves across the normalized text,
     * and the squares they draw.
     */
    method DrawString(text: string, x0: int, y0: int, scale: int) returns (placements: seq<Placement>, pixels: seq<Pixel>)
      requires Complete(glyphs)
      ensures placements == Layout(Normalize(text), x0, y0, scale)
      ensures pixels == Rendered(glyphs, placements, scale)
    {
      placements, pixels := [], [];
      if text == [] {
        return;
      }
      var t := Normalize(text);
      var x, y := x0, y0;
      ghost var col, line := 0, 0;
      ghost var target := Layout(t, x0, y0, scale);
      for i := 0 to |t|
        invariant x == x0 + col * Advance(scale) && y == y0 + line * LineHeight(scale)
        invariant placements + Place(Cells(t[i..], col, line), x0, y0, scale) == target
        invariant pixels == Rendered(glyphs, placements, scale)
      {
        var ch := t[i];
        if ch == '\r' {
          SkipStep(t, i, col, line, x0, y0, scale, placements, target);
          continue;
        }
        if ch == '\n' {
          NewLineStep(t, i, col, line, x0, y0, scale, placements, target);
          x := x0;
          y := y + LineHeight(scale);
          col, line := 0, line + 1;
          continue;
        }
        PenStep(t, i, col, line, x0, y0, scale, x, y, placements, target);
        RenderedSnoc(glyphs, placements, Placement(ch, x, y), scale);
        var drawn := DrawChar(ch, x, y, scale);
        pixels := pixels + drawn;
        placements := placements + [Placement(ch, x, y)];
        x := x + Advance(scale);
        col := col + 1;
      }
      assert t[|t|..] == [];
    }
  }
}
