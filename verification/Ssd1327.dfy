/**
 The SSD1327 grey-scale OLED driver: a 128 x 128 frame of 4-bit pixels, two to a byte, the left pixel
 of a pair in the high nibble.
 */
module Ssd1327 {
  import opened Bits
  import opened Bytes
  import opened Picture

  const WIDTH := 128
  const HEIGHT := 128
  const STRIDE := 64

  type Frame = f: seq<bv8> | |f| == HEIGHT * STRIDE witness seq(HEIGHT * STRIDE, _ => 0)

  function Nibble(b: bv8, left: bool): bv8 { if left then b >> 4 else b & 0x0F }

  /** `(b & 0x0F) | (v << 4)` or `(b & 0xF0) | (v & 0x0F)` */
  function WithNibble(b: bv8, left: bool, v: bv8): bv8
  {
    if left then (b & 0x0F) | (v << 4) else (b & 0xF0) | (v & 0x0F)
  }

  lemma OneNibbleWritten(b: bv8, left: bool, v: bv8, left': bool)
    ensures Nibble(WithNibble(b, left, v), left') == if left' == left then v & 0x0F else Nibble(b, left')
  {
  }

  lemma SameNibbles(a: bv8, b: bv8)
    requires Nibble(a, true) == Nibble(b, true) && Nibble(a, false) == Nibble(b, false)
    ensures a == b
  {
  }

  /** The grey level of pixel (x, y). */
  function Pixel(f: Frame, x: nat, y: nat): bv8
    requires x < WIDTH && y < HEIGHT
  {
    Nibble(f[y * STRIDE + x / 2], x % 2 == 0)
  }

  function Painted(f: Frame, x: nat, y: nat, v: bv8): Frame
    requires x < WIDTH && y < HEIGHT
  {
    f[y * STRIDE + x / 2 := WithNibble(f[y * STRIDE + x / 2], x % 2 == 0, v)]
  }

  lemma PixelAddress(x: nat, y: nat, px: nat, py: nat)
    requires x < WIDTH && px < WIDTH
    ensures y * STRIDE + x / 2 == py * STRIDE + px / 2 && x % 2 == px % 2 ==> x == px && y == py
    ensures y < HEIGHT ==> y * STRIDE + x / 2 < HEIGHT * STRIDE
  {
  }

  /** A pixel keeps only the low four bits of its level, and no write disturbs the other nibble or another byte. */
  lemma PaintsOnePixel(f: Frame, x: nat, y: nat, v: bv8, px: nat, py: nat)
    requires x < WIDTH && y < HEIGHT && px < WIDTH && py < HEIGHT
    ensures Pixel(Painted(f, x, y, v), px, py) == if px == x && py == y then v & 0x0F else Pixel(f, px, py)
  {
    hide Nibble, WithNibble;
    PixelAddress(x, y, px, py);
    OneNibbleWritten(f[y * STRIDE + x / 2], x % 2 == 0, v, px % 2 == 0);
  }

  /** The picture of the text from column `offset` on, at level `v` (its low four bits) on black. */
  ghost predicate Shows(f: Frame, font: Font, text: seq<Char>, offset: int, v: bv8)
  {
    forall x: nat, y: nat | x < WIDTH && y < HEIGHT ::
      Pixel(f, x, y) == if Lit(font, text, x + offset, y) then v & 0x0F else 0
  }

  /** As `Shows`, but only columns left of `q`, and of column `q` the rows below `rows`. */
  ghost predicate ShowsUpTo(f: Frame, font: Font, text: seq<Char>, offset: int, v: bv8, q: int, rows: nat)
  {
    forall x: nat, y: nat | x < WIDTH && y < HEIGHT ::
      Pixel(f, x, y)
      == if (x + offset < q || (x + offset == q && y < rows)) && Lit(font, text, x + offset, y) then v & 0x0F else 0
  }

  lemma BlankShowsNothing(f: Frame, font: Font, text: seq<Char>, offset: int, v: bv8)
    requires forall i | 0 <= i < |f| :: f[i] == 0
    ensures ShowsUpTo(f, font, text, offset, v, 0, 0)
  {
    forall x: nat, y: nat | x < WIDTH && y < HEIGHT
      ensures Pixel(f, x, y) == 0 && (x + offset < 0 ==> !Lit(font, text, x + offset, y))
    {
      assert f[y * STRIDE + x / 2] == 0;
      if x + offset < 0 { UnlitColumn(font, text, x + offset, y); }
    }
  }

  lemma AddsOneRow(f: Frame, f': Frame, font: Font, text: seq<Char>, offset: int, v: bv8, q: int, row: nat)
    requires row < 8 && 0 <= q - offset < WIDTH
    requires ShowsUpTo(f, font, text, offset, v, q, row)
    requires f' == if Bit(Column(font, text, q), row) then Painted(f, q - offset, row, v) else f
    ensures ShowsUpTo(f', font, text, offset, v, q, row + 1)
  {
    hide Bit, Column, Painted, Pixel;
    forall x: nat, y: nat | x < WIDTH && y < HEIGHT
      ensures Pixel(f', x, y)
           == if (x + offset < q || (x + offset == q && y < row + 1)) && Lit(font, text, x + offset, y)
               then v & 0x0F else 0
    {
      PaintsOnePixel(f, q - offset, row, v, x, y);
    }
  }

  /** A column with all its rows done, or off the panel, or blank, is finished. */
  lemma ColumnDone(f: Frame, font: Font, text: seq<Char>, offset: int, v: bv8, q: int, rows: nat)
    requires ShowsUpTo(f, font, text, offset, v, q, rows)
    requires rows == 8 || q - offset < 0 || q - offset >= WIDTH || Column(font, text, q) == 0
    ensures ShowsUpTo(f, font, text, offset, v, q + 1, 0)
  {
    hide Bit, Column, Pixel;
    forall x: nat, y: nat | x < WIDTH && y < HEIGHT
      ensures Pixel(f, x, y) == if x + offset < q + 1 && Lit(font, text, x + offset, y) then v & 0x0F else 0
    {
      if x + offset == q && rows != 8 { UnlitColumn(font, text, q, y); }
    }
  }

  lemma WholePicture(f: Frame, font: Font, text: seq<Char>, offset: int, v: bv8, q: int)
    requires ShowsUpTo(f, font, text, offset, v, q, 0)
    requires q >= CELL_WIDTH * |text| || q - offset >= WIDTH
    ensures Shows(f, font, text, offset, v)
  {
    hide Bit, Column, Pixel;
    forall x: nat, y: nat | x < WIDTH && y < HEIGHT
      ensures Pixel(f, x, y) == if Lit(font, text, x + offset, y) then v & 0x0F else 0
    {
      if x + offset >= q { PastTheText(font, text, x + offset, y); }
    }
  }

  /** In numbers: the left pixel of a pair is the high half of its byte, and on the glyphs it is the level mod 16. */
  lemma {:induction false} FrameShowsGlyphs(
    f: Frame, font: Font, text: seq<Char>, offset: int, v: bv8, x: nat, y: nat)
    requires Shows(f, font, text, offset, v) && x < 128 && y < 128
    ensures var q, b := x + offset, Value(f[64 * y + x / 2]);
            (if x % 2 == 0 then b / 16 else b % 16)
            == if 0 <= q && q / 6 < |text| && q % 6 < 5 && y < 8 &&
                  Bit(font[if 0x20 <= text[q / 6] < 0x80 then text[q / 6] as int - 0x20 else 0][q % 6], y)
               then Value(v) % 16 else 0
  {
    hide Bit, Lit, Value;
    LitIff(font, text, x + offset, y);
    Halves(f[64 * y + x / 2]);
    Halves(v);
    Halves(0);
    assert Pixel(f, x, y) == if Lit(font, text, x + offset, y) then v & 0x0F else 0;
  }

  class Panel {
    const fb: array<bv8>
    /** The frames sent to the panel, oldest first. */
    var flushed: seq<Frame>

    ghost predicate Valid()
      reads this
    {
      fb.Length == HEIGHT * STRIDE
    }

    constructor ()
      ensures Valid() && fresh(fb) && flushed == []
    {
      fb := new bv8[HEIGHT * STRIDE];
      flushed := [];
    }

    method Clear()
      requires Valid()
      modifies fb
      ensures forall i | 0 <= i < fb.Length :: fb[i] == 0
    {
      forall i | 0 <= i < fb.Length { fb[i] := 0; }
    }

    method RenderColumn(font: Font, text: seq<Char>, ghost offset: int, ghost q: int, x: int, columnByte: bv8, v: bv8)
      requires Valid()
      requires x == q - offset && 0 <= x < WIDTH && columnByte == Column(font, text, q)
      requires ShowsUpTo(fb[..], font, text, offset, v, q, 0)
      modifies fb
      ensures ShowsUpTo(fb[..], font, text, offset, v, q + 1, 0)
    {
      hide ShowsUpTo, Bit, Column;
      for row := 0 to 8
        invariant ShowsUpTo(fb[..], font, text, offset, v, q, row)
      {
        ghost var f: Frame := fb[..];
        if Bit(columnByte, row) {
          var byteIdx := row * STRIDE + x / 2;
          if x % 2 == 0 {
            fb[byteIdx] := (fb[byteIdx] & 0x0F) | (v << 4);
          } else {
            fb[byteIdx] := (fb[byteIdx] & 0xF0) | (v & 0x0F);
          }
          assert fb[..] == Painted(f, x, row, v);
        }
        AddsOneRow(f, fb[..], font, text, offset, v, q, row);
      }
      ColumnDone(fb[..], font, text, offset, v, q, 8);
    }

    /** render_text_to_fb: stops a character at the right edge. */
    method RenderText(font: Font, text: seq<Char>, brightness: bv8)
      requires Valid()
      modifies fb
      ensures Shows(fb[..], font, text, 0, brightness)
    {
      hide ShowsUpTo, Shows, Bit, Column;
      Clear();
      BlankShowsNothing(fb[..], font, text, 0, brightness);
      var x := 0;
      var i := 0;
      while i < |text|
        invariant 0 <= i <= |text| && x == CELL_WIDTH * i
        invariant ShowsUpTo(fb[..], font, text, 0, brightness, x, 0)
      {
        var fi := GlyphIndex(text[i]);
        var col := 0;
        while col < GLYPH_WIDTH && x < WIDTH
          invariant 0 <= col <= GLYPH_WIDTH && x == CELL_WIDTH * i + col
          invariant ShowsUpTo(fb[..], font, text, 0, brightness, x, 0)
        {
          ColumnOfCell(font, text, i, col);
          RenderColumn(font, text, 0, x, x, font[fi][col], brightness);
          col := col + 1;
          x := x + 1;
        }
        if col == GLYPH_WIDTH { ColumnOfCell(font, text, i, GLYPH_WIDTH); }
        ColumnDone(fb[..], font, text, 0, brightness, x, 0);
        x := x + 1;
        i := i + 1;
        if x >= WIDTH { break; }
      }
      WholePicture(fb[..], font, text, 0, brightness, x);
    }

    /** One pass of the fallback loop: no early exit, and columns off the panel are skipped one by one. */
    method RenderShifted(font: Font, text: seq<Char>, offset: int)
      requires Valid()
      modifies fb
      ensures Shows(fb[..], font, text, offset, 0x0F)
    {
      hide ShowsUpTo, Shows, Bit, Column;
      Clear();
      BlankShowsNothing(fb[..], font, text, offset, 0x0F);
      var x := -offset;
      for i := 0 to |text|
        invariant x == CELL_WIDTH * i - offset
        invariant ShowsUpTo(fb[..], font, text, offset, 0x0F, x + offset, 0)
      {
        var fi := GlyphIndex(text[i]);
        for col := 0 to GLYPH_WIDTH
          invariant x == CELL_WIDTH * i + col - offset
          invariant ShowsUpTo(fb[..], font, text, offset, 0x0F, x + offset, 0)
        {
          ColumnOfCell(font, text, i, col);
          if x < 0 || x >= WIDTH {
            ColumnDone(fb[..], font, text, offset, 0x0F, x + offset, 0);
            x := x + 1;
            continue;
          }
          RenderColumn(font, text, offset, x + offset, x, font[fi][col], 0x0F);
          x := x + 1;
        }
        ColumnOfCell(font, text, i, GLYPH_WIDTH);
        ColumnDone(fb[..], font, text, offset, 0x0F, x + offset, 0);
        x := x + 1;
      }
      WholePicture(fb[..], font, text, offset, 0x0F, x + offset);
    }

    /** The SCROLL branch of display_text, which hands the offset over as the brightness. */
    method ScrollBranch(font: Font, text: seq<Char>)
      requires Valid()
      modifies this`flushed, fb
      ensures old(flushed) <= flushed && IsScrollBranch(flushed[|old(flushed)|..], font, text)
    {
      hide Shows;
      var textPx := |text| * CELL_WIDTH;
      ghost var sent: seq<Frame> := [];
      for offset := 0 to textPx
        invariant flushed == old(flushed) + sent && |sent| == offset
        invariant forall k | 0 <= k < |sent| :: Shows(sent[k], font, text, 0, ByteOf(k))
      {
        RenderText(font, text, ByteOf(offset));
        flushed := flushed + [fb[..]];
        sent := sent + [fb[..]];
      }
      assert sent == flushed[|old(flushed)|..];
    }

    /** The final else branch of display_text, the one that moves the picture. */
    method FallbackBranch(font: Font, text: seq<Char>)
      requires Valid()
      modifies this`flushed, fb
      ensures old(flushed) <= flushed && IsScroll(flushed[|old(flushed)|..], font, text)
    {
      hide Shows;
      RenderText(font, text, 0x0F);
      var textPx := |text| * CELL_WIDTH;
      ghost var sent: seq<Frame> := [];
      for offset := 0 to textPx
        invariant flushed == old(flushed) + sent && |sent| == offset
        invariant forall k | 0 <= k < |sent| :: Shows(sent[k], font, text, k, 0x0F)
      {
        RenderShifted(font, text, offset);
        flushed := flushed + [fb[..]];
        sent := sent + [fb[..]];
      }
      assert sent == flushed[|old(flushed)|..];
    }
  }

  /** One frame for every offset up to the end of the text, the picture moving left at full brightness. */
  ghost predicate IsScroll(frames: seq<Frame>, font: Font, text: seq<Char>)
  {
    |frames| == CELL_WIDTH * |text| &&
    forall k | 0 <= k < |frames| :: Shows(frames[k], font, text, k, 0x0F)
  }

  /** One frame for every offset, the picture standing still and only its level changing. */
  ghost predicate IsScrollBranch(frames: seq<Frame>, font: Font, text: seq<Char>)
  {
    |frames| == CELL_WIDTH * |text| &&
    forall k | 0 <= k < |frames| :: Shows(frames[k], font, text, 0, ByteOf(k))
  }

  /** In frame k of SCROLL the glyphs stand where they stood, at level k mod 16: black in every sixteenth frame. */
  lemma {:induction false} ScrollBranchLevels(
    frames: seq<Frame>, font: Font, text: seq<Char>, k: nat, x: nat, y: nat)
    requires IsScrollBranch(frames, font, text) && k < 6 * |text| && x < 128 && y < 128
    ensures |frames| == 6 * |text| &&
            var b := Value(frames[k][64 * y + x / 2]);
            (if x % 2 == 0 then b / 16 else b % 16)
            == if x / 6 < |text| && x % 6 < 5 && y < 8 &&
                  Bit(font[if 0x20 <= text[x / 6] < 0x80 then text[x / 6] as int - 0x20 else 0][x % 6], y)
               then k % 16 else 0
  {
    hide Bit, Shows, Value, ByteOf;
    FrameShowsGlyphs(frames[k], font, text, 0, ByteOf(k), x, y);
    LowHalfKept(k);
  }

  /** In frame k of the last branch they have moved k columns to the left, at level 15. */
  lemma {:induction false} FallbackBranchMoves(
    frames: seq<Frame>, font: Font, text: seq<Char>, k: nat, x: nat, y: nat)
    requires IsScroll(frames, font, text) && k < 6 * |text| && x < 128 && y < 128
    ensures |frames| == 6 * |text| &&
            var q, b := x + k, Value(frames[k][64 * y + x / 2]);
            (if x % 2 == 0 then b / 16 else b % 16)
            == if q / 6 < |text| && q % 6 < 5 && y < 8 &&
                  Bit(font[if 0x20 <= text[q / 6] < 0x80 then text[q / 6] as int - 0x20 else 0][q % 6], y)
               then 15 else 0
  {
    assert Value(0x0F) == 15;
    hide Bit, Shows, Value;
    FrameShowsGlyphs(frames[k], font, text, k, 0x0F, x, y);
  }

  /** A picture at a level has only one frame: in particular the two renderers agree at offset 0. */
  lemma {:induction false} FrameIsUnique(f: Frame, g: Frame, font: Font, text: seq<Char>, offset: int, v: bv8)
    requires Shows(f, font, text, offset, v) && Shows(g, font, text, offset, v)
    ensures f == g
  {
    hide Lit, Nibble;
    forall i | 0 <= i < |f|
      ensures f[i] == g[i]
    {
      var x, y := 2 * (i % STRIDE), i / STRIDE;
      assert Pixel(f, x, y) == Pixel(g, x, y) && Pixel(f, x + 1, y) == Pixel(g, x + 1, y);
      SameNibbles(f[i], g[i]);
    }
  }

  lemma UnlitFrames(f: Frame, g: Frame, font: Font, text: seq<Char>, o: int, v: bv8, o': int, v': bv8)
    requires forall q :: Column(font, text, q) == 0
    requires Shows(f, font, text, o, v) && Shows(g, font, text, o', v')
    ensures f == g
  {
    hide Bit;
    forall x: nat, y: nat | x < WIDTH && y < HEIGHT
      ensures Pixel(g, x, y) == if Lit(font, text, x + o, y) then v & 0x0F else 0
    {
      UnlitColumn(font, text, x + o', y);
      UnlitColumn(font, text, x + o, y);
    }
    FrameIsUnique(f, g, font, text, o, v);
  }

  /** SCROLL shows what a scroll would show only for a text without a single lit pixel. */
  lemma {:induction false} ScrollBranchScrollsIffBlank(
    frames: seq<Frame>, scroll: seq<Frame>, font: Font, text: seq<Char>)
    requires IsScrollBranch(frames, font, text) && IsScroll(scroll, font, text)
    ensures frames == scroll <==> forall q :: Column(font, text, q) == 0
  {
    if q :| Column(font, text, q) != 0 {
      var y := SomeLitRow(font, text, q);
      assert ByteOf(0) & 0x0F == 0;
      assert Pixel(scroll[q], 0, y) != 0 && Pixel(frames[0], 0, y) == 0;
      if Lit(font, text, 0, y) {
        assert Pixel(scroll[0], 0, y) != 0;
      } else {
        assert Pixel(frames[q], 0, y) == 0;
      }
    } else {
      forall k | 0 <= k < |frames|
        ensures frames[k] == scroll[k]
      {
        UnlitFrames(frames[k], scroll[k], font, text, 0, ByteOf(k), k, 0x0F);
      }
    }
  }

  lemma SomeLitRow(font: Font, text: seq<Char>, q: int) returns (y: nat)
    requires Column(font, text, q) != 0
    ensures y < 8 && Lit(font, text, q, y) && 0 <= q < CELL_WIDTH * |text|
  {
    y :| y < 8 && Bit(Column(font, text, q), y) by {
      if forall k: nat | k < 8 :: !Bit(Column(font, text, q), k) {
        forall k: nat | k < 8 ensures Bit(Column(font, text, q), k) == Bit(0, k) { FullByte(k); }
        SameBits(Column(font, text, q), 0);
      }
    }
  }
}
