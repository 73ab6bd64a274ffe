/**
 MAX7219 matrices.  A chain of N devices is loaded with packets of N (register, data) words; word d of
 a packet reaches device d, and device N-1-j is the one under display columns 8j .. 8j+7.  The firmware
 loads a display column into each digit register, the server a display row: the two hardware layouts are
 transposed.
 */
module Max7219 {
  import opened Bits
  import opened Picture
  import opened ColumnBitmap

  /** buf[2d] and buf[2d+1] */
  datatype Word = Word(register: nat, data: bv8)
  type Packet = seq<Word>
  /** The digit registers of each device of the chain. */
  type Registers = seq<map<nat, bv8>>

  const REG_ROW_BASE := 1

  // ----- the chain ------------------------------------------------------------------------------

  function Load(chain: Registers, packet: Packet): (r: Registers)
    requires |packet| == |chain|
    ensures |r| == |chain|
  {
    seq(|chain|, d requires 0 <= d < |chain| => chain[d][packet[d].register := packet[d].data])
  }

  function LoadAll(chain: Registers, packets: seq<Packet>): (r: Registers)
    requires forall p | p in packets :: |p| == |chain|
    ensures |r| == |chain|
  {
    if packets == [] then chain else Load(LoadAll(chain, packets[..|packets| - 1]), packets[|packets| - 1])
  }

  /** The register of the device under display column `col`, counted from 0. */
  function Digit(chain: Registers, col: nat, digit: nat): bv8
    requires col < 8 * |chain|
  {
    var registers := chain[|chain| - 1 - col / 8];
    if REG_ROW_BASE + digit in registers then registers[REG_ROW_BASE + digit] else 0
  }

  /** Eight packets that each address one digit register of every device, in order. */
  predicate IsFrame(packets: seq<Packet>, numDevices: nat)
  {
    |packets| == 8 && forall row | 0 <= row < 8 ::
      |packets[row]| == numDevices &&
      forall d | 0 <= d < numDevices :: packets[row][d].register == REG_ROW_BASE + row
  }

  lemma {:induction false} LoadedDigits(chain: Registers, packets: seq<Packet>, n: nat, d: nat, row: nat)
    requires IsFrame(packets, |chain|) && n <= 8 && d < |chain| && row < n
    ensures var r := LoadAll(chain, packets[..n])[d];
            REG_ROW_BASE + row in r && r[REG_ROW_BASE + row] == packets[row][d].data
  {
    assert packets[..n][..n - 1] == packets[..n - 1];
    if row < n - 1 {
      LoadedDigits(chain, packets, n - 1, d, row);
    }
  }

  /** Loading a frame leaves in every digit register the data of the packet that addressed it. */
  lemma {:induction false} FrameLoaded(chain: Registers, packets: seq<Packet>, col: nat, digit: nat)
    requires IsFrame(packets, |chain|) && col < 8 * |chain| && digit < 8
    ensures Digit(LoadAll(chain, packets), col, digit) == packets[digit][|chain| - 1 - col / 8].data
    ensures var registers := LoadAll(chain, packets)[|chain| - 1 - col / 8];
            1 + digit in registers && registers[1 + digit] == packets[digit][|chain| - 1 - col / 8].data
  {
    assert packets[..8] == packets;
    LoadedDigits(chain, packets, 8, |chain| - 1 - col / 8, digit);
  }

  // ----- the firmware ---------------------------------------------------------------------------

  /** The frame shows the window from column `offset` on: each column in the digit register of its own. */
  predicate ColumnsFrame(packets: seq<Packet>, numDevices: nat, bitmap: seq<bv8>, offset: nat)
  {
    IsFrame(packets, numDevices) &&
    forall row, d | 0 <= row < 8 && 0 <= d < numDevices ::
      packets[row][d].data == At(bitmap, offset + (numDevices - 1 - d) * 8 + row)
  }

  function At(bitmap: seq<bv8>, q: nat): bv8 { if q < |bitmap| then bitmap[q] else 0 }

  lemma {:induction false} ColumnsFrameIsUnique(
    p: seq<Packet>, q: seq<Packet>, numDevices: nat, bitmap: seq<bv8>, offset: nat)
    requires ColumnsFrame(p, numDevices, bitmap, offset) && ColumnsFrame(q, numDevices, bitmap, offset)
    ensures p == q
  {
    forall row | 0 <= row < 8 ensures p[row] == q[row] {}
  }

  /** The firmware's frame makes display column j show bitmap column offset + j. */
  lemma {:induction false} FirmwareShowsWindow(
    chain: Registers, packets: seq<Packet>, bitmap: seq<bv8>, offset: nat, j: nat)
    requires ColumnsFrame(packets, |chain|, bitmap, offset) && j < 8 * |chain|
    ensures Digit(LoadAll(chain, packets), j, j % 8) == At(bitmap, offset + j)
  {
    FrameLoaded(chain, packets, j, j % 8);
  }

  class Firmware {
    const numDevices: nat
    const bitmap: array<bv8>
    var bitmapLen: nat
    /** Frames of eight packets sent to the chain, and intensities set, oldest first. */
    var sent: seq<seq<Packet>>
    var intensities: seq<nat>

    ghost predicate Valid()
      reads this
    {
      numDevices > 0 && bitmap.Length == Max7219Chain(numDevices).capacity && bitmapLen <= bitmap.Length
    }

    constructor (numDevices: nat)
      requires numDevices > 0
      ensures Valid() && fresh(bitmap) && this.numDevices == numDevices && sent == [] && intensities == []
    {
      this.numDevices := numDevices;
      bitmap := new bv8[256 + numDevices * 8];
      bitmapLen := 0;
      sent := [];
      intensities := [];
    }

    method RenderColumns(offset: nat)
      requires Valid()
      modifies this`sent
      ensures |sent| == |old(sent)| + 1 && old(sent) <= sent
      ensures ColumnsFrame(sent[|old(sent)|], numDevices, bitmap[..bitmapLen], offset)
    {
      var packets: seq<Packet> := [];
      for row := 0 to 8
        invariant sent == old(sent) && |packets| == row
        invariant forall r | 0 <= r < row :: |packets[r]| == numDevices
        invariant forall r, d | 0 <= r < row && 0 <= d < numDevices ::
                    packets[r][d] == Word(REG_ROW_BASE + r,
                                          At(bitmap[..bitmapLen], offset + (numDevices - 1 - d) * 8 + r))
      {
        var buf: Packet := [];
        for d := 0 to numDevices
          invariant sent == old(sent) && |buf| == d
          invariant forall e | 0 <= e < d ::
                      buf[e] == Word(REG_ROW_BASE + row,
                                     At(bitmap[..bitmapLen], offset + (numDevices - 1 - e) * 8 + row))
        {
          var colIdx := offset + (numDevices - 1 - d) * 8 + row;
          var colByte := if colIdx < bitmapLen then bitmap[colIdx] else 0;
          buf := buf + [Word(REG_ROW_BASE + row, colByte)];
        }
        packets := packets + [buf];
      }
      sent := sent + [packets];
    }

    method BuildText(font: Font, text: seq<Char>)
      requires Valid()
      modifies this`bitmapLen, bitmap
      ensures Valid()
      ensures bitmap[..bitmapLen] == TextBitmap(numDevices, font, text)
      ensures bitmapLen == (if |text| < 43 then 6 * |text| else 256) + 8 * numDevices
      ensures forall q | 0 <= q < bitmapLen :: bitmap[q] ==
                if q / 6 < |text| && q / 6 < 43 && q % 6 < 5
                then font[if 0x20 <= text[q / 6] < 0x80 then text[q / 6] as int - 0x20 else 0][q % 6] else 0
    {
      BitmapIs(numDevices, font, text);
      hide Column;
      DriverGeometries(numDevices);
      bitmapLen := BuildTextBitmap(font, text, bitmap, Max7219Chain(numDevices));
    }

    /** The SCROLL branch of display_text. */
    method Scroll(font: Font, text: seq<Char>)
      requires Valid()
      modifies this`bitmapLen, this`sent, bitmap
      ensures Valid() && old(sent) <= sent
      ensures IsForward(sent[|old(sent)|..], numDevices, TextBitmap(numDevices, font, text))
    {
      hide ColumnsFrame, TextBitmap;
      BuildText(font, text);
      var displayW := numDevices * 8;
      ghost var frames: seq<seq<Packet>> := [];
      ghost var bm := bitmap[..bitmapLen];
      var offset := 0;
      while offset <= bitmapLen - displayW
        invariant 0 <= offset == |frames| && (offset <= bitmapLen - displayW + 1 || offset == 0)
        invariant sent == old(sent) + frames && bitmapLen == |bm| && bitmap[..bitmapLen] == bm
        invariant forall k | 0 <= k < |frames| :: ColumnsFrame(frames[k], numDevices, bm, k)
      {
        RenderColumns(offset);
        frames := frames + [sent[|sent| - 1]];
        offset := offset + 1;
      }
      assert frames == sent[|old(sent)|..];
    }

    /** The REVERSE branch of display_text. */
    method Reverse(font: Font, text: seq<Char>)
      requires Valid()
      modifies this`bitmapLen, this`sent, bitmap
      ensures Valid() && old(sent) <= sent
      ensures IsBackward(sent[|old(sent)|..], numDevices, TextBitmap(numDevices, font, text))
    {
      hide ColumnsFrame, TextBitmap;
      BuildText(font, text);
      var displayW := numDevices * 8;
      ghost var frames: seq<seq<Packet>> := [];
      ghost var bm := bitmap[..bitmapLen];
      ghost var start := if bitmapLen > displayW then bitmapLen - displayW else 0;
      var revOffset := if bitmapLen > displayW then bitmapLen - displayW else 0;
      while revOffset >= 0
        invariant -1 <= revOffset == start - |frames|
        invariant sent == old(sent) + frames && bitmapLen == |bm| && bitmap[..bitmapLen] == bm
        invariant forall k | 0 <= k < |frames| :: ColumnsFrame(frames[k], numDevices, bm, start - k)
      {
        RenderColumns(revOffset);
        frames := frames + [sent[|sent| - 1]];
        revOffset := revOffset - 1;
      }
      assert frames == sent[|old(sent)|..];
    }

    method SendStep(steps: nat, step: nat, div: nat)
      requires step < steps && div == if steps > 1 then steps - 1 else 1
      modifies this`intensities
      ensures intensities == old(intensities) + [Level(steps, step)]
    {
      intensities := intensities + [step * 15 / div % 256];
    }

    /** The two loops of the FADE branch, for a positive number of steps. */
    method PlayRamp(steps: nat)
      modifies this`intensities
      ensures intensities == old(intensities) + Ramp(steps) + Reversed(Ramp(steps))
    {
      hide Level;
      var div := if steps > 1 then steps - 1 else 1;
      ghost var up, down := Ramp(steps), Reversed(Ramp(steps));
      for step := 0 to steps
        invariant intensities == old(intensities) + up[..step]
      {
        SendStep(steps, step, div);
      }
      var step := steps - 1;
      while step >= 0
        invariant -1 <= step < steps
        invariant intensities == old(intensities) + up + down[..steps - 1 - step]
      {
        SendStep(steps, step, div);
        step := step - 1;
      }
    }

    /** The FADE branch of display_text, with its default for a non-positive number of steps. */
    method Fade(font: Font, text: seq<Char>, fadeSteps: int)
      requires Valid() && 15 * fadeSteps < 0x8000_0000
      modifies this`bitmapLen, this`sent, this`intensities, bitmap
      ensures Valid() && |sent| == |old(sent)| + 1 && old(sent) <= sent
      ensures ColumnsFrame(sent[|old(sent)|], numDevices, TextBitmap(numDevices, font, text), 0)
      ensures var ramp := Ramp(if fadeSteps <= 0 then 8 else fadeSteps);
              intensities == old(intensities) + ramp + Reversed(ramp) + [4]
    {
      hide ColumnsFrame, TextBitmap;
      var steps := if fadeSteps <= 0 then 8 else fadeSteps;
      BuildText(font, text);
      RenderColumns(0);
      PlayRamp(steps);
      intensities := intensities + [4];
    }
  }

  /** The bitmap of a text on a chain: at most 43 characters, then a display's width of blank columns. */
  function TextBitmap(numDevices: nat, font: Font, text: seq<Char>): (b: seq<bv8>)
    requires numDevices > 0
    ensures |b| == Max7219Chain(numDevices).Length(|text|) && |b| >= numDevices * 8
  {
    var g := Max7219Chain(numDevices);
    seq(g.Length(|text|), q => Column(font, text[..g.Taken(|text|)], q))
  }

  /** Which glyph column each byte of the bitmap is. */
  lemma BitmapIs(numDevices: nat, font: Font, text: seq<Char>)
    requires numDevices > 0
    ensures var b := TextBitmap(numDevices, font, text);
            |b| == (if |text| < 43 then 6 * |text| else 256) + 8 * numDevices &&
            forall q | 0 <= q < |b| :: b[q] ==
              if q / 6 < |text| && q / 6 < 43 && q % 6 < 5
              then font[if 0x20 <= text[q / 6] < 0x80 then text[q / 6] as int - 0x20 else 0][q % 6] else 0
  {
    DriverGeometries(numDevices);
    var b, taken := TextBitmap(numDevices, font, text), if |text| < 43 then |text| else 43;
    forall q | 0 <= q < |b|
      ensures b[q] == Column(font, text[..taken], q)
    {
    }
    hide Column;
    forall q | 0 <= q < |b|
      ensures b[q] == if q / 6 < |text| && q / 6 < 43 && q % 6 < 5
                      then font[if 0x20 <= text[q / 6] < 0x80 then text[q / 6] as int - 0x20 else 0][q % 6] else 0
    {
      ColumnIs(font, text[..taken], q);
    }
  }

  ghost predicate IsForward(frames: seq<seq<Packet>>, numDevices: nat, bitmap: seq<bv8>)
  {
    |frames| == |bitmap| - numDevices * 8 + 1 &&
    forall k | 0 <= k < |frames| :: ColumnsFrame(frames[k], numDevices, bitmap, k)
  }

  ghost predicate IsBackward(frames: seq<seq<Packet>>, numDevices: nat, bitmap: seq<bv8>)
  {
    var start := if |bitmap| > numDevices * 8 then |bitmap| - numDevices * 8 else 0;
    |frames| == start + 1 &&
    forall k | 0 <= k < |frames| :: ColumnsFrame(frames[k], numDevices, bitmap, start - k)
  }

  function Reversed<T>(s: seq<T>): (r: seq<T>)
    ensures |r| == |s| && forall k | 0 <= k < |s| :: r[k] == s[|s| - 1 - k]
  {
    seq(|s|, k requires 0 <= k < |s| => s[|s| - 1 - k])
  }

  /** REVERSE plays SCROLL backwards, for every text: the empty one and those cut at 43 characters too. */
  lemma {:induction false} ReversePlaysScrollBackwards(
    scroll: seq<seq<Packet>>, reverse: seq<seq<Packet>>, numDevices: nat, font: Font, text: seq<Char>)
    requires numDevices > 0
    requires IsForward(scroll, numDevices, TextBitmap(numDevices, font, text))
    requires IsBackward(reverse, numDevices, TextBitmap(numDevices, font, text))
    ensures reverse == Reversed(scroll)
  {
    var bitmap := TextBitmap(numDevices, font, text);
    forall k | 0 <= k < |reverse|
      ensures reverse[k] == Reversed(scroll)[k]
    {
      hide ColumnsFrame;
      ColumnsFrameIsUnique(reverse[k], scroll[|scroll| - 1 - k], numDevices, bitmap, |scroll| - 1 - k);
    }
  }

  /** In frame k of a scroll, display column j shows picture column k + j of the first 43 characters. */
  lemma {:induction false} ScrollShowsPicture(
    chain: Registers, frames: seq<seq<Packet>>, font: Font, text: seq<Char>, k: nat, j: nat)
    requires |chain| > 0 && k < |frames| && j < 8 * |chain|
    requires IsForward(frames, |chain|, TextBitmap(|chain|, font, text))
    ensures Digit(LoadAll(chain, frames[k]), j, j % 8)
         == Column(font, if |text| < 43 then text else text[..43], k + j)
  {
    hide Column;
    DriverGeometries(|chain|);
    assert |text| <= 43 ==> text[..|text|] == text;
    FirmwareShowsWindow(chain, frames[k], TextBitmap(|chain|, font, text), k, j);
  }

  /**
   In registers: after frame k, digit register 1 + j mod 8 of the device under display column j holds the glyph
   column that has come there.
   */
  lemma {:induction false} ScrollShowsGlyphs(
    chain: Registers, frames: seq<seq<Packet>>, font: Font, text: seq<Char>, k: nat, j: nat)
    requires |chain| > 0 && k < |frames| && j < 8 * |chain|
    requires IsForward(frames, |chain|, TextBitmap(|chain|, font, text))
    ensures |frames| == (if |text| < 43 then 6 * |text| else 256) + 1
    ensures var q, registers := k + j, LoadAll(chain, frames[k])[|chain| - 1 - j / 8];
            1 + j % 8 in registers && registers[1 + j % 8] ==
              if q / 6 < |text| && q / 6 < 43 && q % 6 < 5
              then font[if 0x20 <= text[q / 6] < 0x80 then text[q / 6] as int - 0x20 else 0][q % 6] else 0
  {
    BitmapIs(|chain|, font, text);
    hide Column, TextBitmap, LoadAll, Digit;
    var bitmap := TextBitmap(|chain|, font, text);
    assert ColumnsFrame(frames[k], |chain|, bitmap, k);
    FrameLoaded(chain, frames[k], j, j % 8);
    ColumnsWord(frames[k], |chain|, bitmap, k, j);
  }

  lemma ColumnsWord(packets: seq<Packet>, numDevices: nat, bitmap: seq<bv8>, offset: nat, j: nat)
    requires ColumnsFrame(packets, numDevices, bitmap, offset) && j < 8 * numDevices
    ensures packets[j % 8][numDevices - 1 - j / 8].data == At(bitmap, offset + j)
  {
    hide At;
    assert offset + j == offset + (j / 8) * 8 + j % 8;
  }

  // ----- the fade ramp --------------------------------------------------------------------------

  /** The intensity of a step: C's integer quotient, cut to a byte. */
  function Level(steps: nat, step: nat): nat
    requires step < steps
  {
    var div := if steps > 1 then steps - 1 else 1;
    step * 15 / div % 256
  }

  function Ramp(steps: nat): (r: seq<nat>)
    ensures |r| == steps && forall k | 0 <= k < steps :: r[k] == Level(steps, k)
  {
    seq(steps, k requires 0 <= k < steps => Level(steps, k))
  }

  lemma Quotient(a: nat, b: nat, q: nat)
    requires b > 0
    ensures a / b >= q <==> a >= b * q
  {
    assert a == b * (a / b) + a % b;
    if a / b >= q { ProductGrows(b, q, a / b); } else { ProductGrows(b, a / b + 1, q); }
  }

  lemma ProductGrows(b: nat, x: nat, y: nat)
    requires x <= y
    ensures b * x <= b * y
  {
    assert b * y == b * x + b * (y - x);
  }

  /** For two steps and more the cut to a byte does nothing: a level is at least q iff 15 * step >= (steps - 1) * q. */
  lemma LevelAtLeast(steps: nat, step: nat, q: nat)
    requires steps >= 2 && step < steps
    ensures Level(steps, step) >= q <==> step * 15 >= (steps - 1) * q
    ensures Level(steps, step) <= 15
  {
    Quotient(step * 15, steps - 1, q);
    Quotient(step * 15, steps - 1, 16);
  }

  /** A ramp rises from 0, never falls or leaves 0..15, and, unless it has only one step, ends at 15. */
  lemma {:induction false} RampRises(steps: nat, k: nat, j: nat)
    requires k <= j < steps
    ensures 0 == Ramp(steps)[0] <= Ramp(steps)[k] <= Ramp(steps)[j] <= Ramp(steps)[steps - 1] <= 15
    ensures Ramp(steps)[steps - 1] == if steps > 1 then 15 else 0
  {
    if steps > 1 {
      hide Level;
      var q := Level(steps, k);
      LevelAtLeast(steps, k, q);
      LevelAtLeast(steps, j, q);
      LevelAtLeast(steps, j, Level(steps, j));
      LevelAtLeast(steps, 0, 1);
      LevelAtLeast(steps, steps - 1, 15);
    }
  }

  /** With 16 steps or more no level is skipped. */
  lemma {:induction false} LongRampSkipsNothing(steps: nat, k: nat)
    requires steps >= 16 && k + 1 < steps
    ensures Ramp(steps)[k + 1] <= Ramp(steps)[k] + 1
  {
    hide Level;
    var q := Level(steps, k) + 2;
    LevelAtLeast(steps, k, q - 1);
    LevelAtLeast(steps, k + 1, q);
    assert (steps - 1) * q == (steps - 1) * (q - 1) + (steps - 1);
  }

  lemma {:induction false} LongRampVisitsAll(steps: nat, level: nat) returns (k: nat)
    requires steps >= 16 && level <= 15
    ensures k < steps && Ramp(steps)[k] == level
  {
    hide Level;
    RampRises(steps, 0, 0);
    k := 0;
    while Ramp(steps)[k] < level
      invariant k < steps && Ramp(steps)[k] <= level
      decreases steps - k
    {
      if k + 1 < steps { LongRampSkipsNothing(steps, k); }
      k := k + 1;
    }
  }

  /** With at most 16 steps no level is repeated. */
  lemma {:induction false} ShortRampRepeatsNothing(steps: nat, k: nat)
    requires 2 <= steps <= 16 && k + 1 < steps
    ensures Ramp(steps)[k] < Ramp(steps)[k + 1]
  {
    hide Level;
    var q := Level(steps, k);
    LevelAtLeast(steps, k, q);
    LevelAtLeast(steps, k + 1, q + 1);
    assert (steps - 1) * (q + 1) == (steps - 1) * q + (steps - 1);
  }
}
