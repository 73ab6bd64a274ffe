/**
 The SSD1680 e-paper driver: a 250 x 122 frame of one bit per pixel, 32 bytes a row, most significant
 bit leftmost, a cleared bit black.
 */
module Ssd1680 {
  import opened Bits
  import opened Picture

  const WIDTH := 250
  const HEIGHT := 122
  const STRIDE := 32   // (WIDTH + 7) / 8

  type Frame = f: seq<bv8> | |f| == HEIGHT * STRIDE witness seq(HEIGHT * STRIDE, _ => 0)

  /** Pixel (x, y); x runs over the whole row of 256 bits, six of them padding. */
  predicate Black(f: Frame, x: nat, y: nat)
    requires x < 8 * STRIDE && y < HEIGHT
  {
    !Bit(f[y * STRIDE + x / 8], 7 - x % 8)
  }

  /** The frame with pixel (x, y) painted; pixels off the panel are ignored. */
  function Painted(f: Frame, x: int, y: int, black: bool): Frame
  {
    if x < 0 || x >= WIDTH || y < 0 || y >= HEIGHT then f
    else
      var i := y * STRIDE + x / 8;
      var bit := 7 - x % 8;
      f[i := WithBit(f[i], bit, !black)]
  }

  /** A byte and a bit within it name one pixel of the frame. */
  lemma PixelAddress(x: nat, y: nat, px: nat, py: nat)
    requires x < 8 * STRIDE && px < 8 * STRIDE
    ensures y * STRIDE + x / 8 == py * STRIDE + px / 8 && 7 - x % 8 == 7 - px % 8 ==> x == px && y == py
    ensures y < HEIGHT ==> y * STRIDE + x / 8 < HEIGHT * STRIDE
  {
  }

  /** Painting changes its own pixel and no other, padding included. */
  lemma PaintsOnePixel(f: Frame, x: int, y: int, black: bool, px: nat, py: nat)
    requires px < 8 * STRIDE && py < HEIGHT
    ensures Black(Painted(f, x, y, black), px, py)
         == if px == x && py == y && x < WIDTH then black else Black(f, px, py)
  {
    hide Bit, Mask, WithBit;
    if 0 <= x < WIDTH && 0 <= y < HEIGHT {
      PixelAddress(x, y, px, py);
      OneBitWritten(f[y * STRIDE + x / 8], 7 - x % 8, !black, 7 - px % 8);
    }
  }

  /** The part of the picture left of column `limit`, from column `offset` on, in rows 8..15 and nothing else. */
  ghost predicate ShowsUpTo(f: Frame, font: Font, text: seq<Char>, offset: int, limit: int)
  {
    forall x: nat, y: nat | x < 8 * STRIDE && y < HEIGHT ::
      Black(f, x, y) <==> x < WIDTH && x + offset < limit && Lit(font, text, x + offset, y - 8)
  }

  /** The frame shows the picture of the text from column `offset` on. */
  ghost predicate Shows(f: Frame, font: Font, text: seq<Char>, offset: int)
  {
    forall x: nat, y: nat | x < 8 * STRIDE && y < HEIGHT ::
      Black(f, x, y) <==> x < WIDTH && Lit(font, text, x + offset, y - 8)
  }

  /** Column `q`, rows below `rows`, has been added to the picture left of `q`. */
  ghost predicate ShowsColumn(f: Frame, font: Font, text: seq<Char>, offset: int, q: int, rows: nat)
  {
    forall x: nat, y: nat | x < 8 * STRIDE && y < HEIGHT ::
      Black(f, x, y) <==>
      x < WIDTH && (x + offset < q || (x + offset == q && y < 8 + rows)) && Lit(font, text, x + offset, y - 8)
  }

  class Panel {
    const fb: array<bv8>
    /** The frames written to the controller's RAM, oldest first. */
    var written: seq<Frame>

    ghost predicate Valid()
      reads this
    {
      fb.Length == HEIGHT * STRIDE
    }

    constructor ()
      ensures Valid() && fresh(fb) && written == []
    {
      fb := new bv8[HEIGHT * STRIDE];
      written := [];
    }

    method SetPixel(x: int, y: int, black: bool)
      requires Valid()
      modifies fb
      ensures fb[..] == Painted(old(fb[..]), x, y, black)
    {
      hide Mask;
      if x < 0 || x >= WIDTH || y < 0 || y >= HEIGHT { return; }
      var byteIdx := y * STRIDE + x / 8;
      var bit := 7 - x % 8;
      var b := fb[byteIdx];
      if black {
        b := b & !Mask(bit);
      } else {
        b := b | Mask(bit);
      }
      assert b == WithBit(fb[byteIdx], bit, !black);
      fb[byteIdx] := b;
    }

    method Clear()
      requires Valid()
      modifies fb
      ensures forall i | 0 <= i < fb.Length :: fb[i] == 0xFF
    {
      forall i | 0 <= i < fb.Length { fb[i] := 0xFF; }
    }

    method RenderColumn(font: Font, text: seq<Char>, offset: int, ghost q: int, x: int, columnByte: bv8)
      requires Valid()
      requires x == q - offset && 0 <= x < WIDTH && columnByte == Column(font, text, q)
      requires ShowsUpTo(fb[..], font, text, offset, q)
      modifies fb
      ensures ShowsUpTo(fb[..], font, text, offset, q + 1)
    {
      hide Bit;
      for row := 0 to 8
        invariant ShowsColumn(fb[..], font, text, offset, q, row)
      {
        ghost var f: Frame := fb[..];
        if Bit(columnByte, row) {
          SetPixel(x, row + 8, true);
        }
        AddsOneRow(f, fb[..], font, text, offset, q, row);
      }
    }

    method RenderText(font: Font, text: seq<Char>, offset: int)
      requires Valid()
      modifies fb
      ensures Shows(fb[..], font, text, offset)
    {
      hide Bit, ShowsUpTo, Shows, Column;
      Clear();
      BlankShowsNothing(fb[..], font, text, offset);
      var x := -offset;
      var i := 0;
      while i < |text|
        invariant 0 <= i <= |text|
        invariant x == CELL_WIDTH * i - offset
        invariant ShowsUpTo(fb[..], font, text, offset, x + offset)
      {
        var fi := GlyphIndex(text[i]);
        for col := 0 to GLYPH_WIDTH
          invariant x == CELL_WIDTH * i + col - offset
          invariant ShowsUpTo(fb[..], font, text, offset, x + offset)
        {
          ColumnOfCell(font, text, i, col);
          if x < 0 || x >= WIDTH {
            UnseenColumn(fb[..], font, text, offset, x + offset);
            x := x + 1;
            continue;
          }
          RenderColumn(font, text, offset, x + offset, x, font[fi][col]);
          x := x + 1;
        }
        ColumnOfCell(font, text, i, GLYPH_WIDTH);
        UnseenColumn(fb[..], font, text, offset, x + offset);
        x := x + 1;
        i := i + 1;
        if x >= WIDTH { break; }
      }
      WholePicture(fb[..], font, text, offset, x + offset);
    }

    /** The SCROLL branch of display_text. */
    method Scroll(font: Font, text: seq<Char>)
      requires Valid()
      modifies this`written, fb
      ensures old(written) <= written && IsScroll(written[|old(written)|..], font, text)
    {
      hide Shows;
      var textPx := |text| * CELL_WIDTH;
      var offset := 0;
      ghost var sent: seq<Frame> := [];
      while offset <= textPx
        invariant 0 <= offset <= textPx + 8 && offset == 8 * |sent|
        invariant written == old(written) + sent
        invariant forall k | 0 <= k < |sent| :: Shows(sent[k], font, text, 8 * k)
      {
        RenderText(font, text, offset);
        written := written + [fb[..]];
        sent := sent + [fb[..]];
        offset := offset + 8;
      }
      assert sent == written[|old(written)|..];
    }
  }

  /** Frames eight columns apart, up to the first one that starts at or past the end of the text. */
  ghost predicate IsScroll(frames: seq<Frame>, font: Font, text: seq<Char>)
  {
    |frames| == CELL_WIDTH * |text| / 8 + 1 &&
    forall k | 0 <= k < |frames| :: Shows(frames[k], font, text, 8 * k)
  }

  lemma BlankShowsNothing(f: Frame, font: Font, text: seq<Char>, offset: int)
    requires forall i | 0 <= i < |f| :: f[i] == 0xFF
    ensures ShowsUpTo(f, font, text, offset, 0)
  {
    forall x: nat, y: nat | x < 8 * STRIDE && y < HEIGHT
      ensures !Black(f, x, y) && !(x + offset < 0 && Lit(font, text, x + offset, y - 8))
    {
      assert f[y * STRIDE + x / 8] == 0xFF;
      FullByte(7 - x % 8);
      if x + offset < 0 { UnlitColumn(font, text, x + offset, y - 8); }
    }
  }

  /** A column off the panel, or a blank one, needs no painting. */
  lemma UnseenColumn(f: Frame, font: Font, text: seq<Char>, offset: int, q: int)
    requires ShowsUpTo(f, font, text, offset, q)
    requires q - offset < 0 || q - offset >= WIDTH || Column(font, text, q) == 0
    ensures ShowsUpTo(f, font, text, offset, q + 1)
  {
    hide Bit, Column;
    forall x: nat, y: nat | x < 8 * STRIDE && y < HEIGHT
      ensures Black(f, x, y) <==> x < WIDTH && x + offset < q + 1 && Lit(font, text, x + offset, y - 8)
    {
      if 0 <= q - offset < WIDTH { UnlitColumn(font, text, q, y - 8); }
    }
  }

  /** Nothing of the picture is left to the right of the last cell, or it falls off the panel. */
  lemma WholePicture(f: Frame, font: Font, text: seq<Char>, offset: int, q: int)
    requires ShowsUpTo(f, font, text, offset, q)
    requires q >= CELL_WIDTH * |text| || q - offset >= WIDTH
    ensures Shows(f, font, text, offset)
  {
    hide Bit, Column;
    forall x: nat, y: nat | x < 8 * STRIDE && y < HEIGHT
      ensures Black(f, x, y) <==> x < WIDTH && Lit(font, text, x + offset, y - 8)
    {
      if x < WIDTH && x + offset >= q { PastTheText(font, text, x + offset, y - 8); }
    }
  }

  lemma AddsOneRow(f: Frame, f': Frame, font: Font, text: seq<Char>, offset: int, q: int, row: nat)
    requires row < 8 && 0 <= q - offset < WIDTH
    requires ShowsColumn(f, font, text, offset, q, row)
    requires f' == if Bit(Column(font, text, q), row) then Painted(f, q - offset, row + 8, true) else f
    ensures ShowsColumn(f', font, text, offset, q, row + 1)
  {
    hide Bit;
    forall x: nat, y: nat | x < 8 * STRIDE && y < HEIGHT
      ensures Black(f', x, y) <==>
              x < WIDTH && (x + offset < q || (x + offset == q && y < 8 + row + 1)) &&
              Lit(font, text, x + offset, y - 8)
    {
      PaintsOnePixel(f, q - offset, row + 8, true, x, y);
    }
  }

  /**
   In bytes and bits: the bit of pixel (x, y) is clear exactly where, six columns to a character, the glyph of
   the character there has a pixel.
   */
  lemma {:induction false} FrameShowsGlyphs(f: Frame, font: Font, text: seq<Char>, offset: int, x: nat, y: nat)
    requires Shows(f, font, text, offset) && x < 256 && y < 122
    ensures var q := x + offset;
            !Bit(f[32 * y + x / 8], 7 - x % 8) <==>
            x < 250 && 8 <= y < 16 && 0 <= q && q / 6 < |text| && q % 6 < 5 &&
            Bit(font[if 0x20 <= text[q / 6] < 0x80 then text[q / 6] as int - 0x20 else 0][q % 6], y - 8)
  {
    hide Bit, Lit;
    LitIff(font, text, x + offset, y - 8);
    assert Black(f, x, y) <==> x < WIDTH && Lit(font, text, x + offset, y - 8);
  }

  /** In frame k of SCROLL the glyphs have moved 8k columns to the left. */
  lemma {:induction false} ScrollShowsGlyphs(
    frames: seq<Frame>, font: Font, text: seq<Char>, k: nat, x: nat, y: nat)
    requires IsScroll(frames, font, text) && k <= 6 * |text| / 8 && x < 256 && y < 122
    ensures |frames| == 6 * |text| / 8 + 1 &&
            var q := x + 8 * k;
            !Bit(frames[k][32 * y + x / 8], 7 - x % 8) <==>
            x < 250 && 8 <= y < 16 && q / 6 < |text| && q % 6 < 5 &&
            Bit(font[if 0x20 <= text[q / 6] < 0x80 then text[q / 6] as int - 0x20 else 0][q % 6], y - 8)
  {
    hide Bit, Shows;
    FrameShowsGlyphs(frames[k], font, text, 8 * k, x, y);
  }

  /** A picture has only one frame, padding bits included. */
  lemma {:induction false} FrameIsUnique(f: Frame, g: Frame, font: Font, text: seq<Char>, offset: int)
    requires Shows(f, font, text, offset) && Shows(g, font, text, offset)
    ensures f == g
  {
    forall i | 0 <= i < |f|
      ensures f[i] == g[i]
    {
      forall k: nat | k < 8
        ensures Bit(f[i], k) == Bit(g[i], k)
      {
        var x, y := 8 * (i % STRIDE) + 7 - k, i / STRIDE;
        PixelOfBit(i, k);
        assert Black(f, x, y) == Black(g, x, y);
      }
      SameBits(f[i], g[i]);
    }
  }

  lemma PixelOfBit(i: nat, k: nat)
    requires i < HEIGHT * STRIDE && k < 8
    ensures var x, y := 8 * (i % STRIDE) + 7 - k, i / STRIDE;
            x < 8 * STRIDE && y < HEIGHT && y * STRIDE + x / 8 == i && 7 - x % 8 == k
  {
  }

  /** Scrolling on by eight columns moves every row left by one whole byte, up to the panel's right edge. */
  lemma {:induction false} ScrollMovesWholeBytes(
    f: Frame, g: Frame, font: Font, text: seq<Char>, offset: int, row: nat, b: nat)
    requires Shows(f, font, text, offset) && Shows(g, font, text, offset + 8)
    requires row < HEIGHT && b <= 29
    ensures g[row * STRIDE + b] == f[row * STRIDE + b + 1]
  {
    hide Bit;
    var i, j := row * STRIDE + b, row * STRIDE + b + 1;
    forall k: nat | k < 8
      ensures Bit(g[i], k) == Bit(f[j], k)
    {
      var x := 8 * b + 7 - k;
      PixelOfBit(i, k);
      PixelOfBit(j, k);
      assert Black(g, x, row) <==> Lit(font, text, x + offset + 8, row - 8);
      assert Black(f, x + 8, row) <==> x + 8 < WIDTH && Lit(font, text, x + 8 + offset, row - 8);
    }
    SameBits(g[i], f[j]);
  }
}
