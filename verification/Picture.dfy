/**
 The picture a text stands for, independently of any display: an endless row of pixel columns in
 which character i occupies columns 6i .. 6i+4, column 6i+5 is blank, and bit y of a column is the
 pixel in row y.  Every display driver below is compared with this picture.
 */
module Picture {
  import opened Bits

  const GLYPH_WIDTH := 5
  const CELL_WIDTH := 6
  const TABLE_SIZE := 96

  /** font5x8: 96 glyphs of five columns; the glyph values themselves play no role. */
  type Font = f: seq<seq<bv8>> | |f| == TABLE_SIZE && forall i :: 0 <= i < |f| ==> |f[i]| == GLYPH_WIDTH
    witness seq(TABLE_SIZE, _ => [0, 0, 0, 0, 0])

  /** A character of a C string, before its terminating NUL. */
  type Char = c: int | 0 < c < 256 witness 1

  function GlyphIndex(c: Char): nat
  {
    var fi := c - 0x20;
    if fi < 0 || fi >= TABLE_SIZE then 0 else fi
  }

  /** Column q of the picture. */
  function Column(font: Font, text: seq<Char>, q: int): bv8
  {
    if 0 <= q && q / CELL_WIDTH < |text| && q % CELL_WIDTH < GLYPH_WIDTH
    then font[GlyphIndex(text[q / CELL_WIDTH])][q % CELL_WIDTH]
    else 0
  }

  /** Is pixel (q, y) of the picture lit? */
  predicate Lit(font: Font, text: seq<Char>, q: int, y: int)
  {
    0 <= y < 8 && Bit(Column(font, text, q), y)
  }

  /** The glyphs are those of the characters 0x20 to 0x7F, in order; any other character shows the first one. */
  lemma ColumnOfCell(font: Font, text: seq<Char>, i: nat, c: nat)
    requires i < |text| && c < 6
    ensures Column(font, text, 6 * i + c)
         == if c == 5 then 0 else font[if 0x20 <= text[i] < 0x80 then text[i] as int - 0x20 else 0][c]
  {
  }

  /** The whole picture, column by column. */
  lemma ColumnIs(font: Font, text: seq<Char>, q: int)
    ensures Column(font, text, q)
         == if 0 <= q && q / 6 < |text| && q % 6 < 5
            then font[if 0x20 <= text[q / 6] < 0x80 then text[q / 6] as int - 0x20 else 0][q % 6] else 0
  {
  }

  /** And pixel by pixel. */
  lemma LitIff(font: Font, text: seq<Char>, q: int, y: int)
    ensures Lit(font, text, q, y) <==>
            0 <= y < 8 && 0 <= q && q / 6 < |text| && q % 6 < 5 &&
            Bit(font[if 0x20 <= text[q / 6] < 0x80 then text[q / 6] as int - 0x20 else 0][q % 6], y)
  {
    ColumnIs(font, text, q);
    if 0 <= y < 8 { FullByte(y); }
  }

  /** Cutting a text short blanks the columns of the characters cut off and leaves the others. */
  lemma ColumnOfPrefix(font: Font, text: seq<Char>, k: nat, q: int)
    requires k <= |text|
    ensures Column(font, text[..k], q) == if q < CELL_WIDTH * k then Column(font, text, q) else 0
  {
  }

  lemma UnlitColumn(font: Font, text: seq<Char>, q: int, y: int)
    requires q < 0 || Column(font, text, q) == 0
    ensures !Lit(font, text, q, y)
  {
    if 0 <= y < 8 { FullByte(y); }
  }

  lemma PastTheText(font: Font, text: seq<Char>, q: int, y: int)
    requires q >= CELL_WIDTH * |text|
    ensures !Lit(font, text, q, y)
  {
    if 0 <= y < 8 { FullByte(y); }
  }
}
