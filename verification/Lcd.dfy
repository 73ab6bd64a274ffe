/**
 The HD44780 character display behind an I2C expander: what LcdDisplay writes to the bus, and a receiver
 built from the data sheet that says what the display makes of it.
 */
module Lcd {
  import opened Cancellation

  type Byte = b: int | 0 <= b < 256
  type Nibble = n: int | 0 <= n < 16
  /** A UTF-16 code unit, Kotlin's Char. */
  type CodeUnit = c: int | 0 <= c < 0x1_0000

  const LINE_LENGTH := 16
  const CURSOR_LINE_1 := 0x80
  const CURSOR_LINE_2 := 0xC0
  const BACKLIGHT := 0x08
  const BLANK: Byte := 0x20
  const DDRAM_SIZE := 0x80

  // ----- the receiver ---------------------------------------------------------------------------

  datatype Mode =
    | Eight
    | Four
    | FourPending(high: Nibble, rs: bool)   // the first half of a byte has arrived

  datatype Memory = Ddram | Cgram

  /**
   `open` is what the unconnected lines D3..D0 read as in 8-bit mode, and `firstRs` says which of the two
   halves of a byte decides its register.  `log` lists the bytes accepted, oldest first.
   */
  datatype Chip = Chip(
    open: Nibble, firstRs: bool, mode: Mode, twoLines: bool, increment: bool, view: View,
    memory: Memory, address: nat, ddram: seq<Byte>, log: seq<(bool, Byte)>)

  /** Whether the display is on, whether it shows a cursor, blinking or not, and whether writing data shifts it. */
  datatype View = View(on: bool, cursor: bool, shifts: bool)

  /**
   The expander's outputs, and the chip behind them: RS is bit 0, R/W bit 1, E bit 2, the backlight bit 3, the
   data lines bits 4..7.
   */
  datatype Receiver = Receiver(outputs: Byte, chip: Chip)

  predicate Enabled(b: Byte) { b / 4 % 2 == 1 }

  predicate Reads(b: Byte) { b / 2 % 2 == 1 }

  /** The chip takes the data lines when E falls, unless it is being read. */
  function Output(r: Receiver, b: Byte): Receiver
  {
    var falls := Enabled(r.outputs) && !Enabled(b);
    Receiver(b, if falls && !Reads(r.outputs) then Latch(r.chip, r.outputs % 2 == 1, r.outputs / 16) else r.chip)
  }

  function OutputAll(r: Receiver, bytes: seq<Byte>): Receiver
  {
    if bytes == [] then r else Output(OutputAll(r, bytes[..|bytes| - 1]), bytes[|bytes| - 1])
  }

  function Latch(c: Chip, rs: bool, data: Nibble): Chip
  {
    match c.mode
    case Eight => Accept(c, rs, 16 * data + c.open)
    case Four => c.(mode := FourPending(data, rs))
    case FourPending(high, highRs) => Accept(c.(mode := Four), if c.firstRs then highRs else rs, 16 * high + data)
  }

  function Accept(c: Chip, rs: bool, b: Byte): Chip
  {
    var logged := c.(log := c.log + [(rs, b)]);
    if rs then StoreData(logged, b) else Execute(logged, b)
  }

  function NextAddress(c: Chip): nat
  {
    if !c.increment then (if c.address == 0 then 0x67 else c.address - 1)
    else if c.twoLines && c.address == 0x27 then 0x40
    else if c.twoLines && c.address == 0x67 then 0
    else c.address + 1
  }

  function StoreData(c: Chip, b: Byte): Chip
  {
    if c.memory == Cgram then c
    else c.(ddram := if c.address < |c.ddram| then c.ddram[c.address := b] else c.ddram, address := NextAddress(c))
  }

  function AllBlank(): seq<Byte> { seq(DDRAM_SIZE, _ => 0x20) }

  /** The instruction table of the data sheet; cursor and display shifts and CGRAM contents are not tracked. */
  function Execute(c: Chip, b: Byte): Chip
  {
    if b >= 0x80 then c.(memory := Ddram, address := b - 0x80)
    else if b >= 0x40 then c.(memory := Cgram)
    else if b >= 0x20 then c.(mode := if b / 16 % 2 == 1 then Eight else Four, twoLines := b / 8 % 2 == 1)
    else if b >= 0x10 then c
    else if b >= 0x08 then c.(view := View(b / 4 % 2 == 1, b % 4 != 0, c.view.shifts))
    else if b >= 0x04 then c.(increment := b / 2 % 2 == 1, view := c.view.(shifts := b % 2 == 1))
    else if b >= 0x02 then c.(memory := Ddram, address := 0)
    else if b == 0x01 then c.(memory := Ddram, address := 0, increment := true, ddram := AllBlank())
    else c
  }

  // ----- the driver -----------------------------------------------------------------------------

  datatype Call = Command(value: CodeUnit) | Data(value: CodeUnit)

  function MaskF0(x: nat): nat { x / 16 % 16 * 16 }

  function NibbleBytes(nibble: nat, rs: nat, lit: bool): seq<Byte>
    requires rs <= 1
  {
    var data := MaskF0(nibble) + (if lit then BACKLIGHT else 0) + rs;
    [data + 4, data]
  }

  /** The four bytes of writeCommand or writeData. */
  function CallBytes(call: Call, lit: bool): seq<Byte>
  {
    var rs := if call.Data? then 1 else 0;
    NibbleBytes(MaskF0(call.value), rs, lit) + NibbleBytes(MaskF0(call.value * 16), rs, lit)
  }

  function CallsBytes(calls: seq<Call>, lit: bool): seq<Byte>
  {
    if calls == [] then [] else CallsBytes(calls[..|calls| - 1], lit) + CallBytes(calls[|calls| - 1], lit)
  }

  function DataCalls(text: seq<CodeUnit>): (calls: seq<Call>)
    ensures |calls| == |text| && forall k | 0 <= k < |text| :: calls[k] == Data(text[k])
  {
    seq(|text|, k requires 0 <= k < |text| => Data(text[k]))
  }

  const CLEAR_CALLS := [Command(0x01), Command(0x02)]
  const INIT_CALLS := [Command(0x33), Command(0x32), Command(0x28), Command(0x0C), Command(0x06)] + CLEAR_CALLS

  function Line(text: seq<CodeUnit>, k: nat): seq<CodeUnit>
  {
    if LINE_LENGTH * k >= |text| then []
    else if LINE_LENGTH * (k + 1) >= |text| then text[LINE_LENGTH * k..]
    else text[LINE_LENGTH * k..LINE_LENGTH * (k + 1)]
  }

  function WriteCalls(text: seq<CodeUnit>): seq<Call>
  {
    CLEAR_CALLS
    + (if Line(text, 0) != [] then [Command(CURSOR_LINE_1)] + DataCalls(Line(text, 0)) else [])
    + (if Line(text, 1) != [] then [Command(CURSOR_LINE_2)] + DataCalls(Line(text, 1)) else [])
  }

  function Padded(text: seq<CodeUnit>): seq<CodeUnit>
  {
    seq(LINE_LENGTH, _ => BLANK) + text + seq(LINE_LENGTH, _ => BLANK)
  }

  /** One frame of scrollText. */
  function FrameCalls(text: seq<CodeUnit>, offset: nat): seq<Call>
    requires offset < |text| + LINE_LENGTH
  {
    [Command(CURSOR_LINE_1)] + DataCalls(Padded(text)[offset..offset + LINE_LENGTH])
  }

  /** All the calls of a scroll. */
  function ScrollCalls(text: seq<CodeUnit>, cancel: Cancel): seq<Call>
  {
    var n := |text| + LINE_LENGTH;
    match cancel
    case InDelay(k) => if k < n then FramesCalls(text, k + 1) else FramesCalls(text, n) + CLEAR_CALLS
    case BeforeFrame(k) => FramesCalls(text, if k < n then k else n) + CLEAR_CALLS
    case Never => FramesCalls(text, n) + CLEAR_CALLS
  }

  function FramesCalls(text: seq<CodeUnit>, n: nat): seq<Call>
    requires n <= |text| + LINE_LENGTH
  {
    if n == 0 then [] else FramesCalls(text, n - 1) + FrameCalls(text, n - 1)
  }

  lemma {:induction false} CallsBytesOf(a: seq<Call>, b: seq<Call>, lit: bool)
    ensures CallsBytes(a + b, lit) == CallsBytes(a, lit) + CallsBytes(b, lit)
  {
    hide CallBytes;
    if b == [] {
      assert a + b == a;
    } else {
      CallsBytesOf(a, b[..|b| - 1], lit);
      assert (a + b)[..|a + b| - 1] == a + b[..|b| - 1];
    }
  }

  lemma CallsBytesAppend(a: seq<Call>, call: Call, lit: bool)
    ensures CallsBytes(a + [call], lit) == CallsBytes(a, lit) + CallBytes(call, lit)
  {
    hide CallBytes;
    assert (a + [call])[..|a|] == a;
  }

  class LcdDisplay {
    /** The bytes written to the expander, oldest first. */
    var bus: seq<Byte>
    /** Whether the field BACKLIGHT has its value: it is declared after the block that initializes the display. */
    var lit: bool
    /** lastError != null */
    var failed: bool

    constructor (litBefore: bool)
      ensures bus == CallsBytes(INIT_CALLS, litBefore) && lit && !failed
    {
      bus, lit, failed := [], litBefore, false;
      new;
      InitializeLcd();
      lit := true;
    }

    method WriteNibble(nibble: nat, rs: nat)
      requires rs <= 1
      modifies this`bus
      ensures bus == old(bus) + NibbleBytes(nibble, rs, lit)
      ensures var b := 16 * (nibble / 16 % 16) + (if lit then 8 else 0) + rs; bus == old(bus) + [b + 4, b]
    {
      var data := MaskF0(nibble) + (if lit then BACKLIGHT else 0) + rs;
      bus := bus + [data + 4];
      bus := bus + [data];
    }

    method WriteCommand(cmd: CodeUnit)
      modifies this`bus
      ensures bus == old(bus) + CallBytes(Command(cmd), lit)
    {
      hide NibbleBytes;
      WriteNibble(MaskF0(cmd), 0);
      WriteNibble(MaskF0(cmd * 16), 0);
    }

    method WriteData(data: CodeUnit)
      modifies this`bus
      ensures bus == old(bus) + CallBytes(Data(data), lit)
    {
      hide NibbleBytes;
      WriteNibble(MaskF0(data), 1);
      WriteNibble(MaskF0(data * 16), 1);
    }

    method ClearHardware()
      modifies this`bus
      ensures bus == old(bus) + CallsBytes(CLEAR_CALLS, lit)
    {
      hide CallBytes;
      WriteCommand(0x01);
      WriteCommand(0x02);
      CallsBytesAppend([], Command(0x01), lit);
      CallsBytesAppend([Command(0x01)], Command(0x02), lit);
    }

    method InitializeLcd()
      modifies this`bus
      ensures bus == old(bus) + CallsBytes(INIT_CALLS, lit)
    {
      hide CallBytes;
      ghost var calls: seq<Call> := [];
      var commands: seq<CodeUnit> := [0x33, 0x32, 0x28, 0x0C, 0x06];
      for k := 0 to |commands|
        invariant |calls| == k && forall j | 0 <= j < k :: calls[j] == Command(commands[j])
        invariant bus == old(bus) + CallsBytes(calls, lit)
      {
        WriteCommand(commands[k]);
        CallsBytesAppend(calls, Command(commands[k]), lit);
        calls := calls + [Command(commands[k])];
      }
      ClearHardware();
      CallsBytesOf(calls, CLEAR_CALLS, lit);
      assert calls + CLEAR_CALLS == INIT_CALLS;
    }

    method WriteAll(text: seq<CodeUnit>)
      modifies this`bus
      ensures bus == old(bus) + CallsBytes(DataCalls(text), lit)
    {
      hide CallBytes;
      ghost var calls := DataCalls(text);
      for k := 0 to |text|
        invariant bus == old(bus) + CallsBytes(calls[..k], lit)
      {
        WriteData(text[k]);
        CallsBytesAppend(calls[..k], Data(text[k]), lit);
        assert calls[..k] + [Data(text[k])] == calls[..k + 1];
      }
      assert calls[..|text|] == calls;
    }

    method WriteLine(cursor: CodeUnit, line: seq<CodeUnit>)
      modifies this`bus
      ensures bus == old(bus) + CallsBytes([Command(cursor)] + DataCalls(line), lit)
    {
      hide CallBytes;
      WriteCommand(cursor);
      WriteAll(line);
      CallsBytesAppend([], Command(cursor), lit);
      CallsBytesOf([Command(cursor)], DataCalls(line), lit);
    }

    method Write(text: seq<CodeUnit>)
      modifies this`bus, this`failed
      ensures bus == old(bus) + CallsBytes(WriteCalls(text), lit) && !failed
    {
      hide CallBytes, CallsBytes, DataCalls;
      ClearHardware();
      failed := false;
      ghost var calls := CLEAR_CALLS;
      if Line(text, 0) != [] {
        WriteLine(CURSOR_LINE_1, Line(text, 0));
        CallsBytesOf(calls, [Command(CURSOR_LINE_1)] + DataCalls(Line(text, 0)), lit);
        calls := calls + ([Command(CURSOR_LINE_1)] + DataCalls(Line(text, 0)));
      }
      if Line(text, 1) != [] {
        WriteLine(CURSOR_LINE_2, Line(text, 1));
        CallsBytesOf(calls, [Command(CURSOR_LINE_2)] + DataCalls(Line(text, 1)), lit);
        calls := calls + ([Command(CURSOR_LINE_2)] + DataCalls(Line(text, 1)));
      }
      assert calls == WriteCalls(text);
    }

    /**
     scrollText; a delay that is cancelled throws, and then the last window stays and the cancellation is
     taken for an error.
     */
    method ScrollText(text: seq<CodeUnit>, cancel: Cancel)
      modifies this`bus, this`failed
      ensures bus == old(bus) + CallsBytes(ScrollCalls(text, cancel), lit)
      ensures cancel.Never? ==> bus == old(bus) + CallsBytes(FramesCalls(text, |text| + 16) + CLEAR_CALLS, lit)
      ensures failed <==> old(failed) || (cancel.InDelay? && cancel.frame < |text| + 16)
    {
      hide CallBytes, CallsBytes, DataCalls;
      var padded := Padded(text);
      var offset := 0;
      assert bus == old(bus) + CallsBytes(FramesCalls(text, 0), lit) by { NoCalls(lit); }
      while cancel != BeforeFrame(offset) && offset < |padded| - LINE_LENGTH
        invariant 0 <= offset <= |padded| - LINE_LENGTH == |text| + LINE_LENGTH
        invariant bus == old(bus) + CallsBytes(FramesCalls(text, offset), lit)
        invariant failed == old(failed) && (cancel.Never? || cancel.frame >= offset)
        decreases |padded| - offset
      {
        WriteLine(CURSOR_LINE_1, padded[offset..offset + LINE_LENGTH]);
        CallsBytesOf(FramesCalls(text, offset), FrameCalls(text, offset), lit);
        offset := offset + 1;
        if cancel == InDelay(offset - 1) {
          failed := true;
          return;
        }
      }
      ClearHardware();
      CallsBytesOf(FramesCalls(text, offset), CLEAR_CALLS, lit);
    }
  }

  lemma NoCalls(lit: bool)
    ensures CallsBytes([], lit) == []
  {
  }

  // ----- what the display makes of it -----------------------------------------------------------

  /** The two halves of a call reach the chip as two nibbles, whatever the outputs were before. */
  function Receive(c: Chip, call: Call): Chip
  {
    Latch(Latch(c, call.Data?, call.value / 16 % 16), call.Data?, call.value % 16)
  }

  function ReceiveAll(c: Chip, calls: seq<Call>): Chip
  {
    if calls == [] then c else Receive(ReceiveAll(c, calls[..|calls| - 1]), calls[|calls| - 1])
  }

  lemma {:induction false} OutputAllOf(r: Receiver, a: seq<Byte>, b: seq<Byte>)
    ensures OutputAll(r, a + b) == OutputAll(OutputAll(r, a), b)
  {
    hide Output;
    if b == [] {
      assert a + b == a;
    } else {
      OutputAllOf(r, a, b[..|b| - 1]);
      assert (a + b)[..|a + b| - 1] == a + b[..|b| - 1];
    }
  }

  lemma {:induction false} ReceiveAllOf(c: Chip, a: seq<Call>, b: seq<Call>)
    ensures ReceiveAll(c, a + b) == ReceiveAll(ReceiveAll(c, a), b)
  {
    hide Receive;
    if b == [] {
      assert a + b == a;
    } else {
      ReceiveAllOf(c, a, b[..|b| - 1]);
      assert (a + b)[..|a + b| - 1] == a + b[..|b| - 1];
    }
  }

  lemma OneNibble(r: Receiver, nibble: nat, rs: nat, lit: bool)
    requires rs <= 1 && nibble % 16 == 0 && nibble < 256
    ensures OutputAll(r, NibbleBytes(nibble, rs, lit)).chip == Latch(r.chip, rs == 1, nibble / 16)
  {
    hide Latch;
    var bytes := NibbleBytes(nibble, rs, lit);
    var up := Output(r, bytes[0]);
    assert bytes[..1][..0] == [] && bytes[..1][0] == bytes[0];
    assert OutputAll(r, bytes[..1]) == up;
    assert OutputAll(r, bytes) == Output(up, bytes[1]);
  }

  lemma OneCall(r: Receiver, call: Call, lit: bool)
    ensures OutputAll(r, CallBytes(call, lit)).chip == Receive(r.chip, call)
  {
    hide Latch, NibbleBytes, OutputAll;
    var rs := if call.Data? then 1 else 0;
    var high, low := MaskF0(MaskF0(call.value)), MaskF0(MaskF0(call.value * 16));
    assert MaskF0(call.value) / 16 == call.value / 16 % 16 && MaskF0(call.value * 16) / 16 == call.value % 16;
    OutputAllOf(r, NibbleBytes(MaskF0(call.value), rs, lit), NibbleBytes(MaskF0(call.value * 16), rs, lit));
    OneNibble(r, MaskF0(call.value), rs, lit);
    OneNibble(OutputAll(r, NibbleBytes(MaskF0(call.value), rs, lit)), MaskF0(call.value * 16), rs, lit);
  }

  /** On E's falling edges the bytes of the calls arrive as the calls' nibbles, high one first. */
  lemma {:induction false} CallsArrive(r: Receiver, calls: seq<Call>, lit: bool)
    ensures OutputAll(r, CallsBytes(calls, lit)).chip == ReceiveAll(r.chip, calls)
  {
    hide CallBytes, Receive, OutputAll;
    if calls == [] {
      NothingOutput(r);
    } else {
      CallsArrive(r, calls[..|calls| - 1], lit);
      OutputAllOf(r, CallsBytes(calls[..|calls| - 1], lit), CallBytes(calls[|calls| - 1], lit));
      OneCall(OutputAll(r, CallsBytes(calls[..|calls| - 1], lit)), calls[|calls| - 1], lit);
    }
  }

  /** No byte of a call asks the chip to be read, and every one switches the backlight on, or off. */
  lemma {:induction false} CallsOnlyWrite(calls: seq<Call>, lit: bool)
    ensures forall b | b in CallsBytes(calls, lit) :: b / 2 % 2 == 0 && (b / 8 % 2 == 1 <==> lit)
  {
    if calls != [] {
      CallsOnlyWrite(calls[..|calls| - 1], lit);
      OneCallWrites(calls[|calls| - 1], lit);
      hide CallBytes;
    }
  }

  lemma OneCallWrites(call: Call, lit: bool)
    ensures forall b | b in CallBytes(call, lit) :: b / 2 % 2 == 0 && (b / 8 % 2 == 1 <==> lit)
  {
    var rs := if call.Data? then 1 else 0;
    NibbleWrites(MaskF0(call.value), rs, lit);
    NibbleWrites(MaskF0(call.value * 16), rs, lit);
    hide NibbleBytes, MaskF0;
  }

  lemma NibbleWrites(nibble: nat, rs: nat, lit: bool)
    requires rs <= 1
    ensures forall b | b in NibbleBytes(nibble, rs, lit) :: b / 2 % 2 == 0 && (b / 8 % 2 == 1 <==> lit)
  {
    var data := NibbleBytes(nibble, rs, lit)[1];
    assert forall b | b in NibbleBytes(nibble, rs, lit) :: b == data || b == data + 4;
  }

  lemma NothingOutput(r: Receiver)
    ensures OutputAll(r, []) == r
  {
  }

  /** Two lines are switched on, stand still and show no cursor. */
  predicate Visible(c: Chip) { c.twoLines && c.view == View(true, false, false) }

  /** The state initialization leaves: four-bit mode with no half byte pending, the cursor moving right. */
  ghost predicate Ready(c: Chip)
  {
    c.mode == Four && Visible(c) && c.increment && |c.ddram| == DDRAM_SIZE
  }

  /** In four-bit mode a call is accepted as exactly its register and the low eight bits of its value. */
  lemma CallInFourBitMode(c: Chip, call: Call)
    requires c.mode == Four
    ensures Receive(c, call) == Accept(c, call.Data?, call.value % 256)
  {
    hide Accept;
    LowByte(call.value);
    var pending := Latch(c, call.Data?, call.value / 16 % 16);
    assert pending.(mode := Four) == c;
  }

  lemma LowByte(v: nat)
    ensures 16 * (v / 16 % 16) + v % 16 == v % 256
  {
  }

  lemma LatchThree(c: Chip)
    ensures Latch(c, false, 3).mode ==
            match c.mode
            case Eight => Eight
            case Four => FourPending(3, false)
            case FourPending(high, rs) => if high == 3 && !(c.firstRs && rs) then Eight else Four
  {
    hide StoreData;
    if c.mode.FourPending? && c.firstRs && c.mode.rs { StoringKeepsMode(c.(mode := Four), true, 16 * c.mode.high + 3); }
  }

  lemma StoringKeepsMode(c: Chip, rs: bool, b: Byte)
    requires rs
    ensures Accept(c, rs, b).mode == c.mode
  {
  }

  /** 0x33, 0x32 bring the chip to four-bit mode from eight-bit mode, from four-bit mode, and from any half byte. */
  lemma WakesUp(c: Chip)
    ensures Receive(Receive(c, Command(0x33)), Command(0x32)).mode == Four
  {
    hide Latch, Accept;
    var c1 := Latch(c, false, 3);
    LatchThree(c);
    var c2 := Latch(c1, false, 3);
    LatchThree(c1);
    var c3 := Latch(c2, false, 3);
    LatchThree(c2);
    LatchTwo(c3);
  }

  lemma LatchTwo(c: Chip)
    requires c.mode == Eight
    ensures Latch(c, false, 2).mode == Four
  {
  }

  /** initializeLcd brings the display from any state to a blank, ready one, switched on and without a cursor. */
  lemma {:induction false} Initialized(r: Receiver, lit: bool)
    ensures var c := OutputAll(r, CallsBytes(INIT_CALLS, lit)).chip;
            Ready(c) && c.ddram == AllBlank() && c.memory == Ddram && c.address == 0 &&
            c.view.on && !c.view.cursor && !c.view.shifts && c.increment && c.twoLines
  {
    hide Receive, OutputAll, ReceiveAll, Accept;
    CallsArrive(r, INIT_CALLS, lit);
    var woken := Receive(Receive(r.chip, Command(0x33)), Command(0x32));
    WakesUp(r.chip);
    var wake, setup := [Command(0x33), Command(0x32)], [Command(0x28), Command(0x0C)];
    assert INIT_CALLS == wake + (setup + ([Command(0x06)] + CLEAR_CALLS));
    ReceiveAllOf(r.chip, wake, setup + ([Command(0x06)] + CLEAR_CALLS));
    ReceiveTwo(r.chip, Command(0x33), Command(0x32));
    ReceiveAllOf(woken, setup, [Command(0x06)] + CLEAR_CALLS);
    ReceiveTwo(woken, Command(0x28), Command(0x0C));
    CallInFourBitMode(woken, Command(0x28));
    SetUp(woken);
    var c := Accept(Accept(woken, false, 0x28), false, 0x0C);
    CallInFourBitMode(Accept(woken, false, 0x28), Command(0x0C));
    ReceiveAllOf(c, [Command(0x06)], CLEAR_CALLS);
    ReceiveOne(c, Command(0x06));
    CallInFourBitMode(c, Command(0x06));
    Cleared(Accept(c, false, 0x06));
  }

  lemma SetUp(c: Chip)
    requires c.mode == Four
    ensures Accept(c, false, 0x28).mode == Four
    ensures var c' := Accept(Accept(c, false, 0x28), false, 0x0C); c'.mode == Four && c'.twoLines
    ensures var c' := Accept(Accept(Accept(c, false, 0x28), false, 0x0C), false, 0x06); c'.mode == Four && Visible(c')
  {
  }

  lemma ReceiveOne(c: Chip, x: Call)
    ensures ReceiveAll(c, [x]) == Receive(c, x)
  {
    hide Receive;
    assert [x][..0] == [];
  }

  lemma ReceiveTwo(c: Chip, x: Call, y: Call)
    ensures ReceiveAll(c, [x, y]) == Receive(Receive(c, x), y)
  {
    hide Receive;
    assert [x, y][..1] == [x];
    ReceiveOne(c, x);
  }

  /** clearHardware blanks the memory and sends the cursor home, moving right. */
  lemma Cleared(c: Chip)
    requires c.mode == Four && Visible(c)
    ensures var c' := ReceiveAll(c, CLEAR_CALLS);
            Ready(c') && c'.ddram == AllBlank() && c'.memory == Ddram && c'.address == 0
    ensures ReceiveAll(c, CLEAR_CALLS).log == c.log + [(false, 1), (false, 2)]
  {
    hide Receive;
    ReceiveTwo(c, Command(0x01), Command(0x02));
    CallInFourBitMode(c, Command(0x01));
    CallInFourBitMode(Accept(c, false, 0x01), Command(0x02));
  }

  /** What a call says, as the chip should log it. */
  function Meaning(calls: seq<Call>): (m: seq<(bool, Byte)>)
    ensures |m| == |calls|
  {
    seq(|calls|, k requires 0 <= k < |calls| => (calls[k].Data?, calls[k].value % 256))
  }

  /** Function set with DL = 1, which the driver sends during initialization only. */
  predicate SetsEightBits(call: Call) { call.Command? && 0x30 <= call.value % 256 < 0x40 }

  ghost predicate NeverSwitches(calls: seq<Call>) { forall k | 0 <= k < |calls| :: !SetsEightBits(calls[k]) }

  /** The chip logs at least one byte a call, and out of step it gets back in step only by logging one too many. */
  lemma LogGrows(c: Chip, call: Call)
    ensures |Receive(c, call).log| > |c.log|
    ensures c.mode != Four ==> Receive(c, call).mode != Four || |Receive(c, call).log| > |c.log| + 1
  {
    hide Accept;
    var half := Latch(c, call.Data?, call.value / 16 % 16);
    AcceptLogs(c, call.Data?, 16 * (call.value / 16 % 16) + c.open);
    AcceptLogs(half, call.Data?, 16 * (call.value % 16) + half.open);
    match c.mode
    case Eight =>
    case Four =>
      AcceptLogs(c, call.Data?, 16 * (call.value / 16 % 16) + call.value % 16);
      assert half.(mode := Four) == c;
    case FourPending(high, rs) =>
      AcceptLogs(c.(mode := Four), if c.firstRs then rs else call.Data?, 16 * high + call.value / 16 % 16);
  }

  lemma AcceptLogs(c: Chip, rs: bool, b: Byte)
    ensures Accept(c, rs, b).log == c.log + [(rs, b)]
    ensures Accept(c, rs, b).mode == c.mode || Accept(c, rs, b).mode == Four || Accept(c, rs, b).mode == Eight
    ensures c.mode == Four ==> (Accept(c, rs, b).mode != Four <==> !rs && 0x30 <= b < 0x40)
    ensures Accept(c, rs, b).open == c.open && Accept(c, rs, b).firstRs == c.firstRs
  {
  }

  /**
   From four-bit mode, a sequence of calls is taken as exactly those registers and low bytes, and leaves
   the halves in step, if and only if none of them switches the interface to eight bits.
   */
  lemma {:induction false} CallsDecodeIff(c: Chip, calls: seq<Call>)
    requires c.mode == Four
    ensures var c' := ReceiveAll(c, calls);
            c'.mode == Four && c'.log == c.log + Meaning(calls) <==> NeverSwitches(calls)
  {
    hide Receive;
    if forall k | 0 <= k < |calls| :: !SetsEightBits(calls[k]) {
      InStep(c, calls);
    } else {
      OutOfStep(c, calls);
    }
  }

  lemma {:induction false} InStep(c: Chip, calls: seq<Call>)
    requires c.mode == Four && forall k | 0 <= k < |calls| :: !SetsEightBits(calls[k])
    ensures ReceiveAll(c, calls).mode == Four && ReceiveAll(c, calls).log == c.log + Meaning(calls)
  {
    hide Receive, Accept;
    if calls != [] {
      var before, last := calls[..|calls| - 1], calls[|calls| - 1];
      InStep(c, before);
      CallInFourBitMode(ReceiveAll(c, before), last);
      AcceptLogs(ReceiveAll(c, before), last.Data?, last.value % 256);
      assert Meaning(calls) == Meaning(before) + [(last.Data?, last.value % 256)];
    }
  }

  lemma {:induction false} OutOfStep(c: Chip, calls: seq<Call>)
    requires c.mode == Four && exists k :: 0 <= k < |calls| && SetsEightBits(calls[k])
    ensures var c' := ReceiveAll(c, calls);
            (c'.mode != Four && |c'.log| >= |c.log| + |calls|) || |c'.log| > |c.log| + |calls|
  {
    hide Receive, Accept, SetsEightBits;
    var before, last := calls[..|calls| - 1], calls[|calls| - 1];
    var c1 := ReceiveAll(c, before);
    LogGrows(c1, last);
    if exists k :: 0 <= k < |before| && SetsEightBits(before[k]) {
      OutOfStep(c, before);
    } else {
      assert SetsEightBits(last);
      InStep(c, before);
      SwitchesAway(c1, last);
    }
  }

  lemma SwitchesAway(c: Chip, call: Call)
    requires c.mode == Four && SetsEightBits(call)
    ensures Receive(c, call).mode != Four
  {
    hide Receive, Accept;
    CallInFourBitMode(c, call);
    AcceptLogs(c, call.Data?, call.value % 256);
  }

  /** The same on the bus, where the calls are four bytes each. */
  lemma {:induction false} BusDecodesIff(r: Receiver, calls: seq<Call>, lit: bool)
    requires r.chip.mode == Four
    ensures var c := OutputAll(r, CallsBytes(calls, lit)).chip;
            c.mode == Four && c.log == r.chip.log + Meaning(calls) <==> NeverSwitches(calls)
  {
    hide ReceiveAll, OutputAll, SetsEightBits;
    CallsArrive(r, calls, lit);
    CallsDecodeIff(r.chip, calls);
  }

  lemma LineNeverSwitches(cursor: CodeUnit, text: seq<CodeUnit>)
    requires cursor == CURSOR_LINE_1 || cursor == CURSOR_LINE_2
    ensures NeverSwitches([Command(cursor)] + DataCalls(text)) && NeverSwitches(CLEAR_CALLS)
  {
  }

  lemma {:induction false} FramesNeverSwitch(text: seq<CodeUnit>, n: nat)
    requires n <= |text| + LINE_LENGTH
    ensures NeverSwitches(FramesCalls(text, n))
  {
    hide SetsEightBits, DataCalls;
    if n > 0 {
      FramesNeverSwitch(text, n - 1);
      LineNeverSwitches(CURSOR_LINE_1, Padded(text)[n - 1..n - 1 + LINE_LENGTH]);
    }
  }

  lemma WriteNeverSwitches(text: seq<CodeUnit>)
    ensures NeverSwitches(WriteCalls(text))
  {
    hide SetsEightBits, DataCalls, Line;
    LineNeverSwitches(CURSOR_LINE_1, Line(text, 0));
    LineNeverSwitches(CURSOR_LINE_2, Line(text, 1));
  }

  /** So everything `write` and `scrollText` put on the bus is taken byte for byte, in step. */
  lemma {:induction false} DriverIsUnderstood(r: Receiver, text: seq<CodeUnit>, lit: bool)
    requires r.chip.mode == Four
    ensures OutputAll(r, CallsBytes(WriteCalls(text), lit)).chip.log == r.chip.log + Meaning(WriteCalls(text))
    ensures var calls := FramesCalls(text, |text| + LINE_LENGTH) + CLEAR_CALLS;
            OutputAll(r, CallsBytes(calls, lit)).chip.log == r.chip.log + Meaning(calls)
  {
    hide OutputAll, CallsBytes, SetsEightBits, WriteCalls, FramesCalls;
    WriteNeverSwitches(text);
    BusDecodesIff(r, WriteCalls(text), lit);
    FramesNeverSwitch(text, |text| + LINE_LENGTH);
    LineNeverSwitches(CURSOR_LINE_1, []);
    BusDecodesIff(r, FramesCalls(text, |text| + LINE_LENGTH) + CLEAR_CALLS, lit);
  }

  // ----- what is on the display -----------------------------------------------------------------

  function LowBytes(text: seq<CodeUnit>): (b: seq<Byte>)
    ensures |b| == |text|
  {
    seq(|text|, k requires 0 <= k < |text| => text[k] % 256)
  }

  /** Memory with `bytes` from address `a` on. */
  function Written(ddram: seq<Byte>, a: nat, bytes: seq<Byte>): seq<Byte>
    requires a + |bytes| <= |ddram|
  {
    ddram[..a] + bytes + ddram[a + |bytes|..]
  }

  predicate WithinLine(a: nat, n: nat) { a + n <= 0x27 || (0x40 <= a && a + n <= 0x67) }

  lemma {:induction false} DataRun(c: Chip, text: seq<CodeUnit>, a: nat)
    requires Ready(c) && c.memory == Ddram && c.address == a && WithinLine(a, |text|)
    ensures var c' := ReceiveAll(c, DataCalls(text));
            Ready(c') && c'.memory == Ddram && c'.address == a + |text| &&
            c'.ddram == Written(c.ddram, a, LowBytes(text))
  {
    hide Receive;
    var calls := DataCalls(text);
    if text == [] {
      assert calls == [] && Written(c.ddram, a, LowBytes(text)) == c.ddram;
    } else {
      var before, last := text[..|text| - 1], text[|text| - 1];
      assert calls[..|calls| - 1] == DataCalls(before) && calls[|calls| - 1] == Data(last);
      DataRun(c, before, a);
      var c1 := ReceiveAll(c, DataCalls(before));
      CallInFourBitMode(c1, Data(last));
      assert LowBytes(text) == LowBytes(before) + [last % 256];
      WrittenMore(c.ddram, a, LowBytes(before), last % 256);
    }
  }

  lemma WrittenMore(ddram: seq<Byte>, a: nat, bytes: seq<Byte>, b: Byte)
    requires a + |bytes| < |ddram|
    ensures Written(ddram, a, bytes)[a + |bytes| := b] == Written(ddram, a, bytes + [b])
  {
  }

  /** A cursor command followed by data puts the data at the cursor. */
  lemma LineRun(c: Chip, cursor: CodeUnit, text: seq<CodeUnit>)
    requires Ready(c) && 0x80 <= cursor < 0x100 && WithinLine(cursor - 0x80, |text|)
    ensures var c' := ReceiveAll(c, [Command(cursor)] + DataCalls(text));
            Ready(c') && c'.ddram == Written(c.ddram, cursor - 0x80, LowBytes(text))
  {
    hide Receive, ReceiveAll, DataCalls, Accept, LowBytes, Written;
    ReceiveAllOf(c, [Command(cursor)], DataCalls(text));
    ReceiveOne(c, Command(cursor));
    CallInFourBitMode(c, Command(cursor));
    CursorMoves(c, cursor);
    DataRun(Accept(c, false, cursor), text, cursor - 0x80);
  }

  lemma CursorMoves(c: Chip, cursor: CodeUnit)
    requires Ready(c) && 0x80 <= cursor < 0x100
    ensures var c' := Accept(c, false, cursor);
            Ready(c') && c'.memory == Ddram && c'.address == cursor - 0x80 && c'.ddram == c.ddram
  {
  }

  /** The first 16 characters on line 1, the next 16 on line 2, blanks everywhere else. */
  function Screen(text: seq<CodeUnit>): seq<Byte>
  {
    seq(DDRAM_SIZE, a requires 0 <= a =>
      if a < LINE_LENGTH && a < |text| then text[a] % 256
      else if 0x40 <= a < 0x40 + LINE_LENGTH && LINE_LENGTH + a - 0x40 < |text| then text[LINE_LENGTH + a - 0x40] % 256
      else BLANK)
  }

  /** After `write`, from any ready state, the memory holds exactly that screen. */
  lemma {:induction false} WriteShowsScreen(r: Receiver, text: seq<CodeUnit>, lit: bool)
    requires Ready(r.chip)
    ensures var c := OutputAll(r, CallsBytes(WriteCalls(text), lit)).chip; Ready(c) && c.ddram == Screen(text)
  {
    hide Receive, ReceiveAll, OutputAll, DataCalls, Line;
    CallsArrive(r, WriteCalls(text), lit);
    var line1, line2 := Line(text, 0), Line(text, 1);
    var calls1 := if line1 != [] then [Command(CURSOR_LINE_1)] + DataCalls(line1) else [];
    var calls2 := if line2 != [] then [Command(CURSOR_LINE_2)] + DataCalls(line2) else [];
    assert WriteCalls(text) == CLEAR_CALLS + calls1 + calls2;
    ReceiveAllOf(r.chip, CLEAR_CALLS + calls1, calls2);
    ReceiveAllOf(r.chip, CLEAR_CALLS, calls1);
    Cleared(r.chip);
    var c0 := ReceiveAll(r.chip, CLEAR_CALLS);
    LineLengths(text);
    OptionalLine(c0, CURSOR_LINE_1, line1);
    var c1 := ReceiveAll(c0, calls1);
    OptionalLine(c1, CURSOR_LINE_2, line2);
    ScreenOfLines(text);
  }

  lemma LineLengths(text: seq<CodeUnit>)
    ensures |Line(text, 0)| <= LINE_LENGTH && |Line(text, 1)| <= LINE_LENGTH
  {
  }

  lemma OptionalLine(c: Chip, cursor: CodeUnit, line: seq<CodeUnit>)
    requires Ready(c) && 0x80 <= cursor < 0x100 && WithinLine(cursor - 0x80, |line|)
    ensures var c' := ReceiveAll(c, if line != [] then [Command(cursor)] + DataCalls(line) else []);
            Ready(c') && c'.ddram == Written(c.ddram, cursor - 0x80, LowBytes(line))
  {
    if line != [] {
      LineRun(c, cursor, line);
    } else {
      assert Written(c.ddram, cursor - 0x80, LowBytes(line)) == c.ddram;
    }
  }

  lemma ScreenOfLines(text: seq<CodeUnit>)
    requires |Line(text, 0)| <= LINE_LENGTH && |Line(text, 1)| <= LINE_LENGTH
    ensures Screen(text)
         == Written(Written(AllBlank(), 0, LowBytes(Line(text, 0))), 0x40, LowBytes(Line(text, 1)))
  {
  }

  /**
   Frame `offset` of a scroll puts the 16 characters from `offset` on of the padded text on line 1 and
   leaves the rest of the memory as it was.
   */
  lemma {:induction false} FrameShowsWindow(c: Chip, text: seq<CodeUnit>, offset: nat)
    requires Ready(c) && offset < |text| + LINE_LENGTH
    ensures var c' := ReceiveAll(c, FrameCalls(text, offset));
            Ready(c') && c'.ddram[..LINE_LENGTH] == LowBytes(Padded(text)[offset..offset + LINE_LENGTH])
            && c'.ddram[LINE_LENGTH..] == c.ddram[LINE_LENGTH..]
            && forall a | 0 <= a < 16 ::
                 c'.ddram[a] == if 16 <= offset + a < 16 + |text| then text[offset + a - 16] % 256 else 0x20
  {
    hide Receive, ReceiveAll, DataCalls;
    PaddedIs(text, offset);
    LineRun(c, CURSOR_LINE_1, Padded(text)[offset..offset + LINE_LENGTH]);
  }

  /** The text comes in from the right edge, behind 16 blanks, and leaves at the left one. */
  lemma PaddedIs(text: seq<CodeUnit>, offset: nat)
    requires offset < |text| + LINE_LENGTH
    ensures var line := LowBytes(Padded(text)[offset..offset + LINE_LENGTH]);
            |line| == 16 && forall a | 0 <= a < 16 ::
              line[a] == if 16 <= offset + a < 16 + |text| then text[offset + a - 16] % 256 else 0x20
  {
  }

  /** The frames of a scroll in a row: after n of them the last window is on line 1, and line 2 is untouched. */
  lemma {:induction false} FramesShow(c: Chip, text: seq<CodeUnit>, n: nat)
    requires Ready(c) && n <= |text| + LINE_LENGTH
    ensures var c' := ReceiveAll(c, FramesCalls(text, n));
            Ready(c') && c'.ddram[LINE_LENGTH..] == c.ddram[LINE_LENGTH..]
            && (n > 0 ==> c'.ddram[..LINE_LENGTH] == LowBytes(Padded(text)[n - 1..n - 1 + LINE_LENGTH]))
  {
    hide Receive, FrameCalls, LowBytes, Padded;
    if n > 0 {
      FramesShow(c, text, n - 1);
      ReceiveAllOf(c, FramesCalls(text, n - 1), FrameCalls(text, n - 1));
      FrameShowsWindow(ReceiveAll(c, FramesCalls(text, n - 1)), text, n - 1);
    }
  }

  /**
   A scroll, as sent on the bus, ends on a blank display, ready for the next text, unless it is cancelled in a
   delay: then its last window stays on line 1, and line 2 is untouched.
   */
  lemma {:induction false} ScrollEnds(r: Receiver, text: seq<CodeUnit>, cancel: Cancel, lit: bool)
    requires Ready(r.chip)
    ensures var c := OutputAll(r, CallsBytes(ScrollCalls(text, cancel), lit)).chip;
            Ready(c) &&
            if cancel.InDelay? && cancel.frame < |text| + 16
            then c.ddram == LowBytes(Padded(text)[cancel.frame..cancel.frame + 16]) + r.chip.ddram[16..]
            else c.ddram == AllBlank()
  {
    hide Ready, Receive, ReceiveAll, OutputAll, CallsBytes, LowBytes, Padded, FramesCalls, AllBlank;
    CallsArrive(r, ScrollCalls(text, cancel), lit);
    if cancel.InDelay? && cancel.frame < |text| + 16 {
      EndsInWindow(r.chip, text, cancel.frame + 1);
    } else {
      EndsBlank(r.chip, text, if cancel.BeforeFrame? && cancel.frame < |text| + 16 then cancel.frame else |text| + 16);
    }
  }

  lemma EndsInWindow(c: Chip, text: seq<CodeUnit>, n: nat)
    requires Ready(c) && 0 < n <= |text| + LINE_LENGTH
    ensures var c' := ReceiveAll(c, FramesCalls(text, n));
            Ready(c') && c'.ddram == LowBytes(Padded(text)[n - 1..n - 1 + LINE_LENGTH]) + c.ddram[LINE_LENGTH..]
  {
    hide ReceiveAll, LowBytes, Padded, FramesCalls;
    FramesShow(c, text, n);
    var c' := ReceiveAll(c, FramesCalls(text, n));
    assert c'.ddram == c'.ddram[..LINE_LENGTH] + c'.ddram[LINE_LENGTH..];
  }

  lemma EndsBlank(c: Chip, text: seq<CodeUnit>, n: nat)
    requires Ready(c) && n <= |text| + LINE_LENGTH
    ensures var c' := ReceiveAll(c, FramesCalls(text, n) + CLEAR_CALLS); Ready(c') && c'.ddram == AllBlank()
  {
    hide ReceiveAll, FramesCalls, AllBlank;
    FramesShow(c, text, n);
    ReceiveAllOf(c, FramesCalls(text, n), CLEAR_CALLS);
    Cleared(ReceiveAll(c, FramesCalls(text, n)));
  }
}
