/**
 The column bitmap that the small display drivers build in a fixed buffer before they slide a window
 over it, and the paged displays (SSD1306, SH1106, SSD1309, PCD8544) that show the window.
 */
module ColumnBitmap {
  import opened Bits
  import opened Picture

  /**
   Buffer size, display width, and the index below which the builder starts another character.
   */
  datatype Geometry = Geometry(capacity: nat, width: nat, guard: nat) {
    /** A cell started below the guard fits the buffer, and a display fits behind the cells. */
    predicate Sound() {
      guard + CELL_WIDTH <= capacity + 1 && 0 < width <= capacity
    }

    /** How many characters of a text of length `n` the builder takes. */
    function Taken(n: nat): nat {
      if CELL_WIDTH * n < guard + CELL_WIDTH then n else (guard + CELL_WIDTH - 1) / CELL_WIDTH
    }

    function Length(n: nat): nat {
      if CELL_WIDTH * Taken(n) + width <= capacity then CELL_WIDTH * Taken(n) + width else capacity
    }
  }

  const OLED_128 := Geometry(1024, 128, 1024 - CELL_WIDTH)
  const PCD8544 := Geometry(512, 84, 512 - CELL_WIDTH)

  function Max7219Chain(numDevices: nat): Geometry { Geometry(256 + numDevices * 8, numDevices * 8, 255) }

  /**
   build_text_bitmap: the picture of the characters taken, those whose cell begins below the guard, and a
   display's width of blanks, cut off at the end of the buffer.
   */
  method BuildTextBitmap(font: Font, text: seq<Char>, out: array<bv8>, g: Geometry) returns (idx: nat)
    requires g.Sound() && out.Length == g.capacity
    modifies out
    ensures idx == g.Length(|text|) && g.width <= idx <= g.capacity
    ensures var k := if |text| < (g.guard + 5) / 6 then |text| else (g.guard + 5) / 6;
            idx == if 6 * k + g.width < g.capacity then 6 * k + g.width else g.capacity
    ensures forall q | 0 <= q < idx :: out[q] == Column(font, text[..g.Taken(|text|)], q)
    ensures forall q | idx <= q < out.Length :: out[q] == old(out[q])
  {
    hide Column;
    idx := 0;
    var i := 0;
    while i < |text| && idx < g.guard
      invariant 0 <= i <= |text| && idx == CELL_WIDTH * i <= out.Length
      invariant i == 0 || CELL_WIDTH * (i - 1) < g.guard
      invariant forall q | 0 <= q < idx :: out[q] == Column(font, text, q)
      invariant forall q | idx <= q < out.Length :: out[q] == old(out[q])
    {
      var fi := GlyphIndex(text[i]);
      for col := 0 to GLYPH_WIDTH
        invariant idx == CELL_WIDTH * i + col
        invariant forall q | 0 <= q < idx :: out[q] == Column(font, text, q)
        invariant forall q | idx <= q < out.Length :: out[q] == old(out[q])
      {
        ColumnOfCell(font, text, i, col);
        out[idx] := font[fi][col];
        idx := idx + 1;
      }
      ColumnOfCell(font, text, i, GLYPH_WIDTH);
      out[idx] := 0;
      idx := idx + 1;
      i := i + 1;
    }
    ghost var cells := idx;
    assert i == g.Taken(|text|);
    forall q | 0 <= q < idx ensures out[q] == Column(font, text[..i], q) { ColumnOfPrefix(font, text, i, q); }
    var k := 0;
    while k < g.width && idx < g.capacity
      invariant 0 <= k <= g.width && idx == cells + k <= g.capacity
      invariant forall q | 0 <= q < idx :: out[q] == Column(font, text[..i], q)
      invariant forall q | idx <= q < out.Length :: out[q] == old(out[q])
    {
      ColumnOfPrefix(font, text, i, idx);
      out[idx] := 0;
      idx := idx + 1;
      k := k + 1;
    }
  }

  /** A frame as its pages, top to bottom, each one byte per column with bit y the pixel in the page's row y. */
  type Frame = seq<seq<bv8>>

  /**
   The frame shows the picture from column `offset` on in each of the first `textPages` pages:
   pixel (x, y) is lit iff it lies in one of these pages and the picture is lit at (offset + x, y mod 8).
   */
  ghost predicate Shows(frame: Frame, pages: nat, textPages: nat, width: nat, font: Font, text: seq<Char>, offset: nat)
  {
    |frame| == pages && (forall p | 0 <= p < pages :: |frame[p]| == width) &&
    forall x: nat, y: nat | x < width && y < 8 * pages ::
      Bit(frame[y / 8][x], y % 8) <==> y / 8 < textPages && Lit(font, text, offset + x, y % 8)
  }

  /**
   SSD1306, SSD1309 and SH1106 repeat the text in all eight pages; PCD8544 shows it in the first of six.
   The frame buffer s_fb[page * width + col] is the two-dimensional array fb[page, col].
   */
  class PagedDisplay {
    const geometry: Geometry
    const textPages: nat
    const fb: array2<bv8>
    const bmp: array<bv8>
    /** The frames flushed to the controller, oldest first. */
    var flushed: seq<Frame>

    ghost predicate Valid()
      reads this
    {
      geometry.Sound() && textPages <= fb.Length0 && fb.Length1 == geometry.width && bmp.Length == geometry.capacity
    }

    constructor (geometry: Geometry, pages: nat, textPages: nat)
      requires geometry.Sound() && textPages <= pages
      ensures Valid() && fresh(fb) && fresh(bmp) && flushed == []
      ensures this.geometry == geometry && fb.Length0 == pages && this.textPages == textPages
    {
      this.geometry := geometry;
      this.textPages := textPages;
      fb := new bv8[pages, geometry.width];
      bmp := new bv8[geometry.capacity];
      flushed := [];
    }

    method ReadPage(page: nat) returns (bytes: seq<bv8>)
      requires page < fb.Length0
      ensures |bytes| == fb.Length1 && forall x | 0 <= x < fb.Length1 :: bytes[x] == fb[page, x]
    {
      bytes := [];
      for x := 0 to fb.Length1
        invariant |bytes| == x && forall c | 0 <= c < x :: bytes[c] == fb[page, c]
      {
        bytes := bytes + [fb[page, x]];
      }
    }

    method Flush()
      modifies this`flushed
      ensures |flushed| == |old(flushed)| + 1 && old(flushed) <= flushed
      ensures var frame := flushed[|old(flushed)|];
              |frame| == fb.Length0 && (forall p | 0 <= p < fb.Length0 :: |frame[p]| == fb.Length1) &&
              forall p, x | 0 <= p < fb.Length0 && 0 <= x < fb.Length1 :: frame[p][x] == fb[p, x]
    {
      var frame: Frame := [];
      for page := 0 to fb.Length0
        invariant flushed == old(flushed)
        invariant |frame| == page && forall p | 0 <= p < page :: |frame[p]| == fb.Length1
        invariant forall p, x | 0 <= p < page && 0 <= x < fb.Length1 :: frame[p][x] == fb[p, x]
      {
        var bytes := ReadPage(page);
        frame := frame + [bytes];
      }
      flushed := flushed + [frame];
    }

    /** The two inner loops of SCROLL; their range guard never fails.  PCD8544 clears the buffer first. */
    method FillFrame(offset: nat, bmpLen: nat)
      requires Valid() && offset + geometry.width <= bmpLen <= bmp.Length
      modifies fb
      ensures forall p, x | 0 <= p < fb.Length0 && 0 <= x < fb.Length1 ::
                fb[p, x] == if p < textPages then bmp[offset + x] else 0
    {
      if textPages < fb.Length0 {
        forall p, x | 0 <= p < fb.Length0 && 0 <= x < fb.Length1 { fb[p, x] := 0; }
      }
      for page := 0 to textPages
        invariant forall p, x | 0 <= p < page && 0 <= x < fb.Length1 :: fb[p, x] == bmp[offset + x]
        invariant forall p, x | textPages <= p < fb.Length0 && 0 <= x < fb.Length1 :: fb[p, x] == 0
      {
        for col := 0 to fb.Length1
          invariant forall p, x | 0 <= p < page && 0 <= x < fb.Length1 :: fb[p, x] == bmp[offset + x]
          invariant forall x | 0 <= x < col :: fb[page, x] == bmp[offset + x]
          invariant forall p, x | textPages <= p < fb.Length0 && 0 <= x < fb.Length1 :: fb[p, x] == 0
        {
          var bi := offset + col;
          assert bi < bmpLen;
          fb[page, col] := if bi < bmpLen then bmp[bi] else 0;
        }
      }
    }

    /** The SCROLL branch of display_text. */
    method Scroll(font: Font, text: seq<Char>)
      requires Valid()
      modifies this`flushed, fb, bmp
      ensures old(flushed) <= flushed
      ensures IsScroll(flushed[|old(flushed)|..], fb.Length0, textPages, geometry, font, text)
    {
      hide Column, Shows;
      var bmpLen := BuildTextBitmap(font, text, bmp, geometry);
      ghost var shown: seq<Char> := text[..geometry.Taken(|text|)];
      ghost var sent: seq<Frame> := [];
      var offset := 0;
      while offset <= bmpLen - geometry.width
        invariant 0 <= offset == |sent| <= bmpLen - geometry.width + 1
        invariant flushed == old(flushed) + sent
        invariant forall q | 0 <= q < bmpLen :: bmp[q] == Column(font, shown, q)
        invariant forall k | 0 <= k < |sent| :: Shows(sent[k], fb.Length0, textPages, geometry.width, font, shown, k)
      {
        FillFrame(offset, bmpLen);
        Flush();
        ghost var frame := flushed[|flushed| - 1];
        WindowShows(frame, fb.Length0, textPages, geometry.width, font, shown, offset);
        sent := sent + [frame];
        offset := offset + 1;
      }
      assert sent == flushed[|old(flushed)|..];
    }
  }

  lemma WindowShows(frame: Frame, pages: nat, textPages: nat, width: nat, font: Font, text: seq<Char>, offset: nat)
    requires |frame| == pages
    requires forall p | 0 <= p < pages :: |frame[p]| == width
    requires forall p, x | 0 <= p < pages && 0 <= x < width ::
               frame[p][x] == if p < textPages then Column(font, text, offset + x) else 0
    ensures Shows(frame, pages, textPages, width, font, text, offset)
  {
    hide Bit, Column;
    forall x: nat, y: nat | x < width && y < 8 * pages
      ensures Bit(frame[y / 8][x], y % 8) <==> y / 8 < textPages && Lit(font, text, offset + x, y % 8)
    {
      FullByte(y % 8);
    }
  }

  /** Every window of the bitmap in turn, each one column further on than the last. */
  ghost predicate IsScroll(frames: seq<Frame>, pages: nat, textPages: nat, g: Geometry, font: Font, text: seq<Char>)
  {
    |frames| == g.Length(|text|) - g.width + 1 &&
    forall k | 0 <= k < |frames| ::
      Shows(frames[k], pages, textPages, g.width, font, text[..g.Taken(|text|)], k)
  }

  /** The builder's length: min(6k + W, M) for the k characters it takes. */
  lemma LengthIs(g: Geometry, n: nat)
    requires g.Sound()
    ensures var k := if n < (g.guard + 5) / 6 then n else (g.guard + 5) / 6;
            g.Taken(n) == k && g.Length(n) == if 6 * k + g.width < g.capacity then 6 * k + g.width else g.capacity
  {
  }

  /**
   In bits: column x of frame k shows, six columns to a character, the glyphs of the characters whose cell
   begins below the guard, from column k on, in the text pages and nowhere else.
   */
  lemma {:induction false} ScrollShowsGlyphs(
    frames: seq<Frame>, pages: nat, textPages: nat, g: Geometry, font: Font, text: seq<Char>,
    k: nat, p: nat, x: nat, j: nat)
    requires g.Sound() && IsScroll(frames, pages, textPages, g, font, text)
    requires k < |frames| && p < pages && x < g.width && j < 8
    ensures var q := k + x;
            |frames[k]| == pages && |frames[k][p]| == g.width &&
            (Bit(frames[k][p][x], j) <==>
             p < textPages && q / 6 < |text| && 6 * (q / 6) < g.guard && q % 6 < 5 &&
             Bit(font[if 0x20 <= text[q / 6] < 0x80 then text[q / 6] as int - 0x20 else 0][q % 6], j))
    ensures var n := if |text| < (g.guard + 5) / 6 then |text| else (g.guard + 5) / 6;
            |frames| == (if 6 * n < g.capacity - g.width then 6 * n else g.capacity - g.width) + 1
  {
    hide Bit, Lit, Shows;
    LengthIs(g, |text|);
    var shown := text[..g.Taken(|text|)];
    ShowsByte(frames[k], pages, textPages, g.width, font, shown, k, p, x, j);
    LitIff(font, shown, k + x, j);
  }

  /** Consecutive frames show the same columns one place further left. */
  lemma {:induction false} ScrollMovesOneColumn(
    frames: seq<Frame>, pages: nat, textPages: nat, g: Geometry, font: Font, text: seq<Char>, k: nat, p: nat, x: nat)
    requires IsScroll(frames, pages, textPages, g, font, text)
    requires k + 1 < |frames| && p < pages && x + 1 < g.width
    ensures frames[k + 1][p][x] == frames[k][p][x + 1]
  {
    hide Bit, Lit;
    var next, cur := frames[k + 1], frames[k];
    forall j: nat | j < 8
      ensures Bit(next[p][x], j) == Bit(cur[p][x + 1], j)
    {
      assert (8 * p + j) / 8 == p && (8 * p + j) % 8 == j;
      ShowsByte(next, pages, textPages, g.width, font, text[..g.Taken(|text|)], k + 1, p, x, j);
      ShowsByte(cur, pages, textPages, g.width, font, text[..g.Taken(|text|)], k, p, x + 1, j);
    }
    SameBits(next[p][x], cur[p][x + 1]);
  }

  lemma ShowsByte(frame: Frame, pages: nat, textPages: nat, width: nat, font: Font, text: seq<Char>, offset: nat,
                  p: nat, x: nat, j: nat)
    requires Shows(frame, pages, textPages, width, font, text, offset)
    requires p < pages && x < width && j < 8
    ensures |frame| == pages && |frame[p]| == width
    ensures Bit(frame[p][x], j) <==> p < textPages && Lit(font, text, offset + x, j)
  {
    hide Bit, Lit;
    var y := 8 * p + j;
    assert y / 8 == p && y % 8 == j;
    assert Bit(frame[y / 8][x], y % 8) <==> y / 8 < textPages && Lit(font, text, offset + x, y % 8);
  }

  /** The window at which a scroll ends lies behind the text. */
  ghost predicate EndsBlank(g: Geometry, font: Font, text: seq<Char>)
  {
    forall q | g.Length(|text|) - g.width <= q < g.Length(|text|) :: Column(font, text[..g.Taken(|text|)], q) == 0
  }

  /**
   Whatever the glyphs, a scroll ends on a blank window exactly for the texts that fit the buffer
   together with a display's width of padding; longer ones stop with characters still in view.
   */
  lemma {:induction false} ScrollEndsBlankIffFits(g: Geometry, text: seq<Char>)
    requires g.Sound() && (g.capacity - g.width) % CELL_WIDTH < GLYPH_WIDTH
    requires CELL_WIDTH * ((g.capacity - g.width) / CELL_WIDTH) < g.guard
    ensures (forall font: Font :: EndsBlank(g, font, text)) <==> CELL_WIDTH * |text| + g.width <= g.capacity
  {
    var shown := text[..g.Taken(|text|)];
    if CELL_WIDTH * |text| + g.width <= g.capacity {
      assert shown == text;
      forall font: Font
        ensures EndsBlank(g, font, text)
      {
      }
    } else {
      var font: Font := seq(TABLE_SIZE, _ => [0xFF, 0xFF, 0xFF, 0xFF, 0xFF]);
      var q := g.Length(|text|) - g.width;
      assert q == g.capacity - g.width;
      assert q / CELL_WIDTH < |shown|;
      assert font[GlyphIndex(shown[q / CELL_WIDTH])] == [0xFF, 0xFF, 0xFF, 0xFF, 0xFF];
      assert Column(font, shown, q) == 0xFF;
      assert !EndsBlank(g, font, text);
    }
  }

  /** The geometries of the drivers: the builder stays within the buffer, and the law above applies. */
  lemma DriverGeometries(numDevices: nat)
    requires numDevices > 0
    ensures forall g | g in {OLED_128, PCD8544, Max7219Chain(numDevices)} ::
              g.Sound() && (g.capacity - g.width) % CELL_WIDTH < GLYPH_WIDTH &&
              CELL_WIDTH * ((g.capacity - g.width) / CELL_WIDTH) < g.guard
    ensures forall n: nat :: OLED_128.Taken(n) == if n < 170 then n else 170
    ensures forall n: nat :: PCD8544.Taken(n) == if n < 85 then n else 85
    ensures forall n: nat :: Max7219Chain(numDevices).Taken(n) == if n < 43 then n else 43
    ensures forall n: nat :: OLED_128.Length(n) == if 6 * n < 896 then 6 * n + 128 else 1024
    ensures forall n: nat :: PCD8544.Length(n) == if 6 * n < 428 then 6 * n + 84 else 512
    ensures forall n: nat ::
              Max7219Chain(numDevices).Length(n) == (if n < 43 then 6 * n else 256) + 8 * numDevices
  {
  }
}
