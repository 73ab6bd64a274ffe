/**
 The server's own MAX7219 driver, which loads a display row into each digit register, most significant
 bit leftmost.
 */
module Max7219Matrix {
  import opened Bits
  import opened Cancellation
  import opened Max7219

  type Glyph = g: seq<bv8> | |g| == 5 witness [0, 0, 0, 0, 0]

  /** The low n bits of `b` are row `row` of the n columns from `start` on, the leftmost column highest. */
  ghost predicate Gathered(b: bv8, bitmap: seq<bv8>, start: nat, row: nat, n: nat)
    requires row < 8 && n <= 8
  {
    forall k: nat | k < n :: Bit(b, k) <==> Bit(At(bitmap, start + n - 1 - k), row)
  }

  lemma GatheredOneMore(b: bv8, bitmap: seq<bv8>, start: nat, row: nat, n: nat, bit: bool)
    requires row < 8 && n < 8 && Gathered(b, bitmap, start, row, n) && bit == Bit(At(bitmap, start + n), row)
    ensures Gathered((b << 1) | (if bit then 1 else 0), bitmap, start, row, n + 1)
  {
    hide Bit, At;
    var b' := (b << 1) | (if bit then 1 else 0);
    forall k: nat | k < n + 1
      ensures Bit(b', k) <==> Bit(At(bitmap, start + n - k), row)
    {
      ShiftedIn(b, bit, k);
    }
  }

  /** buildPacket: the word of every device for one row of the window. */
  method BuildPacket(bitmap: seq<bv8>, offset: nat, numDevices: nat, row: nat) returns (packet: Packet)
    requires row < 8
    ensures IsRow(packet, bitmap, offset, numDevices, row)
  {
    hide Bit, Gathered;
    packet := [];
    for d := 0 to numDevices
      invariant |packet| == d
      invariant forall e | 0 <= e < d ::
                  packet[e].register == row + 1 &&
                  Gathered(packet[e].data, bitmap, offset + (numDevices - 1 - e) * 8, row, 8)
    {
      var physicalD := numDevices - 1 - d;
      var columnByte: bv8 := 0;
      NothingGathered(columnByte, bitmap, offset + physicalD * 8, row);
      for col := 0 to 8
        invariant Gathered(columnByte, bitmap, offset + physicalD * 8, row, col)
      {
        var globalCol := offset + physicalD * 8 + col;
        var bit := if globalCol < |bitmap| then Bit(bitmap[globalCol], row) else false;
        FullByte(row);
        GatheredOneMore(columnByte, bitmap, offset + physicalD * 8, row, col, bit);
        columnByte := (columnByte << 1) | (if bit then 1 else 0);
      }
      packet := packet + [Word(row + 1, columnByte)];
    }
  }

  lemma NothingGathered(b: bv8, bitmap: seq<bv8>, start: nat, row: nat)
    requires row < 8
    ensures Gathered(b, bitmap, start, row, 0)
  {
  }

  /** The packet puts row `row` of the window into digit register `row` of the chain. */
  ghost predicate IsRow(packet: Packet, bitmap: seq<bv8>, offset: nat, numDevices: nat, row: nat)
    requires row < 8
  {
    |packet| == numDevices && forall d | 0 <= d < numDevices ::
      packet[d].register == REG_ROW_BASE + row &&
      Gathered(packet[d].data, bitmap, offset + (numDevices - 1 - d) * 8, row, 8)
  }

  /** The frame shows the window from column `offset` on, a row to each packet. */
  ghost predicate RowsFrame(packets: seq<Packet>, numDevices: nat, bitmap: seq<bv8>, offset: nat)
  {
    |packets| == 8 && forall row | 0 <= row < 8 :: IsRow(packets[row], bitmap, offset, numDevices, row)
  }

  method Render(bitmap: seq<bv8>, offset: nat, numDevices: nat) returns (packets: seq<Packet>)
    ensures RowsFrame(packets, numDevices, bitmap, offset)
  {
    hide IsRow;
    packets := [];
    for row := 0 to 8
      invariant |packets| == row && forall r | 0 <= r < row :: IsRow(packets[r], bitmap, offset, numDevices, r)
    {
      var packet := BuildPacket(bitmap, offset, numDevices, row);
      packets := packets + [packet];
    }
  }

  /** The column of pixels a viewer sees at display column j: bit r from the row register r. */
  ghost predicate SeesColumn(chain: Registers, j: nat, column: bv8)
    requires j < 8 * |chain|
  {
    forall r: nat | r < 8 :: Bit(Digit(chain, j, r), 7 - j % 8) <==> Bit(column, r)
  }

  /** Whatever the registers held before, the eight packets of a frame put exactly the window on display. */
  lemma {:induction false} ServerShowsWindow(
    chain: Registers, packets: seq<Packet>, bitmap: seq<bv8>, offset: nat, j: nat)
    requires RowsFrame(packets, |chain|, bitmap, offset) && j < 8 * |chain|
    ensures SeesColumn(LoadAll(chain, packets), j, At(bitmap, offset + j))
  {
    forall r: nat | r < 8
      ensures Bit(Digit(LoadAll(chain, packets), j, r), 7 - j % 8) <==> Bit(At(bitmap, offset + j), r)
    {
      ServerShowsPixel(chain, packets, bitmap, offset, j, r);
    }
  }

  lemma ServerShowsPixel(chain: Registers, packets: seq<Packet>, bitmap: seq<bv8>, offset: nat, j: nat, r: nat)
    requires RowsFrame(packets, |chain|, bitmap, offset) && j < 8 * |chain| && r < 8
    ensures Bit(Digit(LoadAll(chain, packets), j, r), 7 - j % 8) <==> Bit(At(bitmap, offset + j), r)
  {
    hide Bit, Digit, At, LoadAll, Gathered;
    FrameLoaded(chain, packets, j, r);
    var d := |chain| - 1 - j / 8;
    assert IsRow(packets[r], bitmap, offset, |chain|, r);
    GatheredPixel(packets[r][d].data, bitmap, offset + (|chain| - 1 - d) * 8, r, j % 8);
    assert offset + (|chain| - 1 - d) * 8 + j % 8 == offset + j;
  }

  lemma GatheredPixel(b: bv8, bitmap: seq<bv8>, start: nat, row: nat, c: nat)
    requires row < 8 && c < 8 && Gathered(b, bitmap, start, row, 8)
    ensures Bit(b, 7 - c) <==> Bit(At(bitmap, start + c), row)
  {
    hide Bit, At;
  }

  /** For one window, server and firmware load each device with transposed 8 x 8 blocks of bits. */
  lemma {:induction false} LayoutsAreTransposed(
    server: Registers, rows: seq<Packet>, firmware: Registers, columns: seq<Packet>,
    bitmap: seq<bv8>, offset: nat, device: nat, r: nat, c: nat)
    requires |server| == |firmware| && device < |server| && r < 8 && c < 8
    requires RowsFrame(rows, |server|, bitmap, offset) && ColumnsFrame(columns, |firmware|, bitmap, offset)
    ensures Bit(Digit(LoadAll(server, rows), 8 * device + c, r), 7 - c)
       <==> Bit(Digit(LoadAll(firmware, columns), 8 * device + c, c), r)
  {
    hide Bit, Digit, At, LoadAll;
    assert (8 * device + c) % 8 == c;
    ServerShowsPixel(server, rows, bitmap, offset, 8 * device + c, r);
    FirmwareShowsWindow(firmware, columns, bitmap, offset, 8 * device + c);
  }

  /** Column q of the picture of a text in the server's font. */
  function GlyphColumn(font: char -> Glyph, text: string, q: nat): bv8
  {
    if q / 6 < |text| && q % 6 < 5 then font(text[q / 6])[q % 6] else 0
  }

  /** The bitmap of a text: the whole picture, never cut, and a display's width of blank columns. */
  function ServerBitmap(font: char -> Glyph, text: string, numDevices: nat): (b: seq<bv8>)
    ensures |b| == 6 * |text| + 8 * numDevices
  {
    seq(6 * |text| + 8 * numDevices, q requires 0 <= q => GlyphColumn(font, text, q))
  }

  /** buildBitmap */
  method BuildBitmap(font: char -> Glyph, text: string, numDevices: nat) returns (columns: seq<bv8>)
    ensures columns == ServerBitmap(font, text, numDevices)
    ensures |columns| == 6 * |text| + 8 * numDevices
    ensures forall q | 0 <= q < |columns| ::
              columns[q] == if q / 6 < |text| && q % 6 < 5 then font(text[q / 6])[q % 6] else 0
  {
    columns := [];
    for i := 0 to |text|
      invariant |columns| == 6 * i
      invariant forall q | 0 <= q < |columns| :: columns[q] == GlyphColumn(font, text, q)
    {
      var glyph := font(text[i]);
      columns := columns + glyph;
      columns := columns + [0];
      forall q | 6 * i <= q < 6 * i + 6 ensures columns[q] == GlyphColumn(font, text, q) {
        assert q == 6 * i + q % 6 && q / 6 == i;
      }
    }
    var trailingPad := numDevices * 8;
    for k := 0 to trailingPad
      invariant |columns| == 6 * |text| + k
      invariant forall q | 0 <= q < |columns| :: columns[q] == GlyphColumn(font, text, q)
    {
      columns := columns + [0];
    }
  }

  /** clear(): every digit register of every device is set to 0. */
  method Clear(numDevices: nat) returns (packets: seq<Packet>)
    ensures RowsFrame(packets, numDevices, [], 0)
  {
    hide Gathered;
    packets := [];
    for row := 0 to 8
      invariant |packets| == row && forall r | 0 <= r < row :: IsRow(packets[r], [], 0, numDevices, r)
    {
      AllDark(row);
      packets := packets + [seq(numDevices, _ => Word(row + 1, 0))];
    }
  }

  lemma AllDark(row: nat)
    requires row < 8
    ensures forall start: nat :: Gathered(0, [], start, row, 8)
  {
    forall k: nat | k < 8
      ensures !Bit(0, k)
    {
      ZeroBit(k);
    }
    hide Bit;
  }

  lemma ZeroBit(k: nat)
    requires k < 8
    ensures !Bit(0, k)
  {
  }

  /**
   scrollText: every window in turn, the last one behind the text, and then a clear frame; a delay that is
   cancelled throws, and then the last window stays.
   */
  method ScrollText(font: char -> Glyph, text: string, numDevices: nat, cancel: Cancel)
    returns (frames: seq<seq<Packet>>)
    ensures |frames| == if !cancel.Never? && cancel.frame <= 6 * |text| then cancel.frame + 1 else 6 * |text| + 2
    ensures var stays := cancel.InDelay? && cancel.frame <= 6 * |text|;
            (forall k | 0 <= k < if stays then |frames| else |frames| - 1 ::
               RowsFrame(frames[k], numDevices, ServerBitmap(font, text, numDevices), k)) &&
            (!stays ==> RowsFrame(frames[|frames| - 1], numDevices, [], 0))
  {
    hide RowsFrame;
    frames := [];
    var bitmap := BuildBitmap(font, text, numDevices);
    var visibleColumns := numDevices * 8;
    var maxOffset := |bitmap| - visibleColumns;
    if maxOffset < 0 {
      assert false;   // "text fits statically" never happens: the bitmap always ends in a display's width of padding
    }
    var offset := 0;
    while cancel != BeforeFrame(offset) && offset <= maxOffset
      invariant 0 <= offset == |frames| <= maxOffset + 1
      invariant forall k | 0 <= k < |frames| :: RowsFrame(frames[k], numDevices, bitmap, k)
      invariant cancel.Never? || cancel.frame >= offset
      decreases maxOffset - offset
    {
      var packets := Render(bitmap, offset, numDevices);
      frames := frames + [packets];
      offset := offset + 1;
      if cancel == InDelay(offset - 1) { return; }
    }
    var dark := Clear(numDevices);
    frames := frames + [dark];
  }

  /**
   In registers: after frame k, bit 7 - j mod 8 of digit register 1 + r of the device under display column j is
   the pixel in row r of the glyph column that has come there.
   */
  lemma {:induction false} ScrollShowsGlyphs(
    chain: Registers, packets: seq<Packet>, font: char -> Glyph, text: string, k: nat, j: nat, r: nat)
    requires RowsFrame(packets, |chain|, ServerBitmap(font, text, |chain|), k)
    requires j < 8 * |chain| && r < 8
    ensures var q, registers := k + j, LoadAll(chain, packets)[|chain| - 1 - j / 8];
            1 + r in registers &&
            (Bit(registers[1 + r], 7 - j % 8) <==>
             q / 6 < |text| && q % 6 < 5 && Bit(font(text[q / 6])[q % 6], r))
  {
    hide Bit, Gathered, LoadAll, Digit;
    ZeroBit(r);
    ServerShowsPixel(chain, packets, ServerBitmap(font, text, |chain|), k, j, r);
    FrameLoaded(chain, packets, j, r);
  }

  /** In frame k of a scroll, display column j shows picture column k + j; so the last frame is blank. */
  lemma {:induction false} ScrollShowsPicture(
    chain: Registers, packets: seq<Packet>, font: char -> Glyph, text: string, k: nat, j: nat)
    requires RowsFrame(packets, |chain|, ServerBitmap(font, text, |chain|), k)
    requires k <= 6 * |text| && j < 8 * |chain|
    ensures SeesColumn(LoadAll(chain, packets), j, GlyphColumn(font, text, k + j))
    ensures k == 6 * |text| ==> GlyphColumn(font, text, k + j) == 0
  {
    hide SeesColumn, RowsFrame;
    ServerShowsWindow(chain, packets, ServerBitmap(font, text, |chain|), k, j);
  }
}
