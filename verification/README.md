# TextReaderRpi, verified

A Dafny 4.11 model of the parts of TextReaderRpi that carry state, bit arithmetic or interleavings, and
proofs about them. `dafny verify dfyconfig.toml` checks everything.

The project follows the program:

- **Text to pixels.** `Picture` defines the picture a text stands for: pixel (q, y) is lit iff q = 6i + c,
  c < 5, and bit y of column c of the glyph of character i is set. `Ssd1680` (1 bit per pixel), `Ssd1327`
  (two pixels per byte), `ColumnBitmap` (the column buffer, and the paged displays SSD1306, SH1106, SSD1309,
  PCD8544) and `Max7219` (the firmware's matrix driver) render into arrays as the C code does and are proved
  to show exactly that picture, clipped and shifted. `Max7219Matrix` is the server's own matrix driver, with the
  transposed register layout. `Bits` and `Bytes` hold facts about single bits and the numbers bytes stand for. The font stays an arbitrary table. The
  ESP32 copies of these drivers (`firmware/esp32/main/driver`) run the same loops; the table cites the Pico files.
- **Encoders and decoders.** `Lcd` is the HD44780 driver on its 4-bit bus together with a receiver written
  from the HD44780U data sheet ("Initializing by Instruction", 4-bit interface). `CaptivePortal` is the form
  decoding of the ESP32 set-up portal, against the application/x-www-form-urlencoded serializer of section 5
  of the WHATWG URL Standard (percent-encoding: section 2.1 of RFC 3986). `Highlight` is the search highlighting.
- **Concurrent server protocols.** `FirmwareZone` and `ScreenDriver` are step machines whose runs are all
  interleavings of atomic sections; `FirmwareZoneDriver` and `ScreenDriverService` hold the classes, which are
  always where some run leads, so that what is proved of runs holds of them. `Scheduler` and `Retry` are the
  loops driven by time and failure, `ScheduleLoops` is about the coroutines of schedules over the runs of
  `ScreenDriver`, `ZoneRegistry` the map of zones, `History` the bounded log and its pages, and
  `Timestamps` the printed instants that are its keys.

Where a promise of the program is false, the model keeps the code and a lemma says exactly when the promise
holds:

- The SCROLL branch of the SSD1327 driver passes the offset as the brightness, so it scrolls iff there is
  nothing to see (`Ssd1327.ScrollBranchScrollsIffBlank`).
- Long texts stop scrolling with characters in view: `ColumnBitmap.ScrollEndsBlankIffFits`.
- The portal keeps 63 encoded bytes of each value. A longer encoding is lost, except for 65 bytes whose end
  is `%` or `%2`, where the torn escape happens to read as that very text (`CaptivePortal.FormRoundTrip`).
- A validated interval is read correctly iff its product fits in 64 bits; otherwise it is unknown or wraps,
  possibly to a negative delay, and then the run bound of the schedule is gone
  (`Scheduler.AcceptedIntervalIsReadIff`, `Scheduler.WrappedIntervalFiresUnbounded`).
- A SKIP_NEW mutex stays locked for good iff its request was cancelled before its job started or while it
  broadcast (`ScreenDriver.LockedAtRestIffAbandoned`), which can happen to any of them
  (`ScreenDriver.AbandonedKeepsLock`).
- Expiry and maxRuns aside, a schedule with no fire under way can fire again iff its loop was never cancelled,
  or was already awake for one last fire (`ScheduleLoops.LoopSurvivesIff`). Apart from the scheduler itself, what cancels a loop is an
  admitted display or broadcast while a fire of it is the current job, that is, since it stored its job and
  until another job is stored, launched or forgotten (`ScheduleLoops.LoopCancelledIff`); any display can do it
  (`ScheduleLoops.DisplayEndsLoop`).
- A scheduled text without a zone is recorded as displayed but never sent, and the scheduler names no zone
  (`ScreenDriver.ZonelessFiresNeverSend`).
- Retry delays never decrease iff the second is no smaller than the first and, should the factor be negative,
  the third equals the second, whatever the rounding of Doubles does (`Retry.DelaysNeverDecreaseIff`); for a
  factor of at least 1 and delays of at most 53 bits that means that the first is within the maximum and, if
  negative, is its own rounded product (`Retry.BackoffNeverDecreasesIff`). Beyond 53 bits even the factor 1.0
  can lower a delay (`Retry.BeyondDoublesDelaysFall`).
- `displayedAt` strings sort like clocks iff the earlier instant's fraction is not printed with only the first
  of the later one's digits in the same second (`Timestamps.StringOrderIsClockOrderIff`). So the history is the
  last 1000 rows, whatever the database chooses, iff whenever it is full the oldest row has the one smallest
  key (`History.KeepsTheLastIff`, `History.ClockKeepsTheLastIff`).
- History pages put one after another are what findAll returns iff no two matching rows share a `displayedAt`
  (`History.PagesCoverIffDistinct`); they hold every matching row once iff no `displayedAt` has rows on both
  sides of a page boundary (`History.PagesMissNothingIff`).
- Every displaced zone driver is stopped iff no firmware registration hit an existing zone
  (`ZoneRegistry.AllStoppedIff`; `ZoneRegistry.RegistrationLeaksDriver` is such a registration).
- A session attached once more sees its messages in order, however things go on, iff no older drain of it may
  still receive, or the channel is closed with at most one message left for it: over all interleavings
  (`FirmwareZoneDriver.LaunchKeepsOrderIff`) and in calls that do not overlap
  (`FirmwareZoneDriver.SessionSeesOrderIff`). A session attached once always does
  (`FirmwareZone.SessionAttachedOnceSeesOrder`).
- `detach` leaves a drain at work iff that drain's attach call is not over or its job was overwritten by an
  overlapping attach (`FirmwareZoneDriver.DetachLeaves`, `FirmwareZoneDriver.DetachReachesAllIff`); ONLINE is
  reported iff a session is set and a drain other than those is at work, or the current one has run to the end
  of a closed channel (`FirmwareZoneDriver.OnlineIff`).

Modelling notes:

- Kotlin suspension points become separate steps; each step is one atomic section of the source. Cancellation,
  failures of sends, and the moment a coroutine starts or stops are free choices of the run.
- `accepted`, `received`, `fates`, `deliveries`, `replaced`, `log`, `drivers`, `stops` and the like are
  histories that the program itself does not keep; the theorems are about them.
- A drain that is cancelled before its body starts never runs, its finally block included; a drain that is
  cancelled later may go on receiving until it suspends.
- A schedule's loop is awake between the end of a delay and the fire that follows; a fire arrives only from an
  awake loop, and `displayScheduled` makes the loop's job the current one. A broadcast is a request without a
  zone. How often a render sends before it succeeds, and how many rows it gets, are free choices.
- `Retry` takes the rounding of Doubles as a parameter of which it assumes only that it keeps order and
  integers of up to 53 bits.
- `Cancel` says where the cancellation of a scroll loop finds it: a cancelled delay throws, so that the last
  window stays, while the loop's own test lets it end with a clear.
- Bytes written to a bus are sequences of bytes, packets or frames; clocks are explicit numbers; the order of
  rows with equal keys is any order the database may choose.
- `LcdDisplay` declares `BACKLIGHT` after the block that initializes the display, so the model lets the
  backlight bit be either way during initialization.
- In `Max7219Matrix.scrollText` the branch for texts that fit the display is never taken, because the bitmap
  always ends in a display's width of padding; the model asserts this.
- `Max7219.Fade` asks for 15 * fade_steps below 2^31, where C's product is defined.
- `MASKS[k]` is `1 << k`, `Bytes.Value` the number a byte stands for; `hide` statements only keep definitions out of proofs that do not need them.

## Model

| member | source | states |
|---|---|---|
| Picture.ColumnOfCell | firmware/pico/src/driver/ssd1680.c:73-84 | column c of cell i of the reference picture is column c of glyph text[i] - 0x20, or of glyph 0 for characters outside 0x20..0x7F, and the sixth column is blank |
| Picture.ColumnOfPrefix | firmware/pico/src/driver/max7219.c:86-94 | cutting a text at k characters blanks exactly the columns from 6k on |
| Bits.OneBitWritten | firmware/pico/src/driver/ssd1680.c:65-67 | setting or clearing a bit changes that bit and no other |
| Ssd1680.PaintsOnePixel | firmware/pico/src/driver/ssd1680.c:62-68 | set_pixel changes its own pixel and no other of the 256 x 122 bits; off-panel pixels change nothing |
| Ssd1680.Panel.SetPixel | firmware/pico/src/driver/ssd1680.c:62-68 | the in-place update is that one-pixel change |
| Ssd1680.Panel.RenderColumn | firmware/pico/src/driver/ssd1680.c:77-83 | a visible column is added in rows 8..15, the columns before it stay |
| Ssd1680.Panel.RenderText | firmware/pico/src/driver/ssd1680.c:70-87 | for every text and offset, pixel (x, y) is black iff y is in 8..15 and the picture is lit at (x + offset, y - 8); clipping and the early break lose nothing; padding stays white |
| Ssd1680.Panel.Scroll | firmware/pico/src/driver/ssd1680.c:144-154 | SCROLL writes 6n/8 + 1 frames, the k-th showing the picture from column 8k |
| Ssd1680.FrameIsUnique | firmware/pico/src/driver/ssd1680.c:70-87 | the picture determines every byte of the frame |
| Ssd1680.FrameShowsGlyphs | firmware/pico/src/driver/ssd1680.c:70-87 | bit 7 - x mod 8 of byte 32y + x/8 is clear iff x < 250, y is in 8..15 and, with q = x + offset, q mod 6 < 5 and the glyph of character q/6 has row y - 8 of its column q mod 6 set |
| Ssd1680.ScrollShowsGlyphs | firmware/pico/src/driver/ssd1680.c:144-154 | so does frame k of SCROLL, moved left by 8k columns |
| Ssd1680.ScrollMovesWholeBytes | firmware/pico/src/driver/ssd1680.c:144-146 | scrolling by 8 moves bytes 1..30 of every row one byte to the left |
| Ssd1327.PaintsOnePixel | firmware/pico/src/driver/ssd1327.c:51-55 | a write stores the low four bits of the level in its nibble and disturbs no other pixel |
| Ssd1327.Panel.RenderColumn | firmware/pico/src/driver/ssd1327.c:45-58 | a visible column is added, the columns before it stay |
| Ssd1327.Panel.RenderText | firmware/pico/src/driver/ssd1327.c:38-62 | every pixel is brightness mod 16 where the picture is lit and 0 elsewhere |
| Ssd1327.Panel.RenderShifted | firmware/pico/src/driver/ssd1327.c:137-155 | a fallback frame is the picture shifted left by the offset, at level 15 |
| Ssd1327.Panel.ScrollBranch | firmware/pico/src/driver/ssd1327.c:97-103 | SCROLL shows 6n frames of the unmoved picture, the k-th at level k mod 16 |
| Ssd1327.Panel.FallbackBranch | firmware/pico/src/driver/ssd1327.c:133-158 | the final else branch shows the picture shifted by 0, 1, .., 6n - 1 |
| Ssd1327.FrameIsUnique | firmware/pico/src/driver/ssd1327.c:38-62 | one picture and level have one frame, so the fallback at offset 0 equals render_text_to_fb(text, 0x0F) |
| Ssd1327.FrameShowsGlyphs | firmware/pico/src/driver/ssd1327.c:38-62 | the high half (x even) or low half (x odd) of byte 64y + x/2 is the level mod 16 where the glyph of character (x + offset)/6 has its pixel, and 0 elsewhere |
| Ssd1327.ScrollBranchLevels | firmware/pico/src/driver/ssd1327.c:97-103 | in frame k of SCROLL the unmoved glyphs have level k mod 16 |
| Ssd1327.FallbackBranchMoves | firmware/pico/src/driver/ssd1327.c:133-158 | in frame k of the final else branch the glyphs have moved k columns to the left, at level 15 |
| Ssd1327.ScrollBranchScrollsIffBlank | firmware/pico/src/driver/ssd1327.c:97-103 | SCROLL shows what the true scroll shows iff every column of the text is blank |
| ColumnBitmap.BuildTextBitmap | firmware/pico/src/driver/ssd1306.c:39-54 | the builder stays within the buffer, returns min(6k + W, M) for the k characters taken, byte 6i + c is glyph column c of character i, all other bytes are 0, the rest of the buffer is untouched |
| ColumnBitmap.DriverGeometries | firmware/pico/src/driver/pcd8544.c:35-46 | the buffers of the drivers are large enough; they take at most 170, 85 and 43 characters; and the bitmaps of n characters are 6n + W columns long, cut at 1024, 512 and 256 + 8N |
| ColumnBitmap.PagedDisplay.FillFrame | firmware/pico/src/driver/ssd1306.c:103-108 | every text page shows the window, the range guard never fails, other pages are 0 |
| ColumnBitmap.PagedDisplay.Flush | firmware/pico/src/driver/ssd1309.c:25-35 | a flush sends the frame buffer page by page |
| ColumnBitmap.PagedDisplay.Scroll | firmware/pico/src/driver/sh1106.c:100-110 | SCROLL shows every window 0..len - W; pixel (x, y) of frame k is lit iff y lies in a text page and the picture of the characters taken is lit at (k + x, y mod 8) |
| ColumnBitmap.ScrollMovesOneColumn | firmware/pico/src/driver/pcd8544.c:79-87 | consecutive frames shift by one column |
| ColumnBitmap.ScrollShowsGlyphs | firmware/pico/src/driver/ssd1306.c:100-110 | bit j of byte x of a text page of frame k is set iff, with q = k + x, q mod 6 < 5, character q/6 begins below the guard and its glyph has row j of column q mod 6 set; there are min(6n, M - W) + 1 frames for the n characters taken |
| ColumnBitmap.ScrollEndsBlankIffFits | firmware/pico/src/driver/ssd1306.c:39-54 | whatever the font, the last window is blank iff 6 strlen + W fits the buffer |
| Max7219.FrameLoaded | firmware/pico/src/driver/max7219.c:69-82 | eight packets leave in each digit register the data of the packet that addressed it, whatever was there before |
| Max7219.FirmwareShowsWindow | firmware/pico/src/driver/max7219.c:69-82 | display column j shows bitmap column offset + j |
| Max7219.ScrollShowsPicture | firmware/pico/src/driver/max7219.c:110-117 | in frame k of SCROLL display column j shows picture column k + j of the first 43 characters |
| Max7219.ScrollShowsGlyphs | firmware/pico/src/driver/max7219.c:110-117 | digit register 1 + j mod 8 of device N - 1 - j/8 then holds column (k + j) mod 6 of the glyph of character (k + j)/6, or 0 |
| Max7219.Firmware.RenderColumns | firmware/pico/src/driver/max7219.c:69-82 | one frame of eight packets for the window is sent |
| Max7219.Firmware.BuildText | firmware/pico/src/driver/max7219.c:84-100 | the static bitmap holds, byte by byte, the glyph columns of the first 43 characters and blanks behind them, 6n + 8N or 256 + 8N bytes |
| Max7219.Firmware.Scroll | firmware/pico/src/driver/max7219.c:110-117 | SCROLL sends the windows 0..len - W in order |
| Max7219.Firmware.Reverse | firmware/pico/src/driver/max7219.c:128-135 | REVERSE sends the windows from the last down to 0 |
| Max7219.ReversePlaysScrollBackwards | firmware/pico/src/driver/max7219.c:128-135 | for every text REVERSE sends exactly SCROLL's frames in reverse order |
| Max7219.Firmware.PlayRamp | firmware/pico/src/driver/max7219.c:139-147 | the intensities go up the ramp and down its mirror image |
| Max7219.Firmware.Fade | firmware/pico/src/driver/max7219.c:136-148 | FADE shows window 0, plays the ramp for the given or default steps, and ends at intensity 4 |
| Max7219.RampRises | firmware/pico/src/driver/max7219.c:139-143 | for every number of steps levels rise from 0, never fall or leave 0..15, and end at 15 unless there is one step only |
| Max7219.LongRampSkipsNothing | firmware/pico/src/driver/max7219.c:139-143 | with 16 steps or more neighbouring levels differ by at most 1 |
| Max7219.LongRampVisitsAll | firmware/pico/src/driver/max7219.c:139-143 | with 16 steps or more every level 0..15 occurs |
| Max7219.ShortRampRepeatsNothing | firmware/pico/src/driver/max7219.c:139-143 | with 2 to 16 steps levels strictly increase |
| Max7219Matrix.BuildPacket | src/main/kotlin/com/anjo/driver/Max7219Matrix.kt:29-45 | bit 7 - c of a device's word is bit `row` of its column c, blank past the bitmap, register row + 1 |
| Max7219Matrix.Render | src/main/kotlin/com/anjo/driver/Max7219Matrix.kt:150-154 | the eight packets hold the eight rows of the window |
| Max7219Matrix.ServerShowsWindow | src/main/kotlin/com/anjo/driver/Max7219Matrix.kt:29-45 | the eight packets decode back to exactly the 8N columns of the window |
| Max7219Matrix.LayoutsAreTransposed | src/main/kotlin/com/anjo/driver/Max7219Matrix.kt:29-45 | for one window server and firmware load each device with transposed 8 x 8 bit blocks |
| Max7219Matrix.BuildBitmap | src/main/kotlin/com/anjo/driver/Max7219Matrix.kt:156-169 | the bitmap has 6n + 8N columns; column q is column q mod 6 of the glyph of character q/6 if q mod 6 < 5 and there is such a character, and blank otherwise |
| Max7219Matrix.Clear | src/main/kotlin/com/anjo/driver/Max7219Matrix.kt:85-95 | clear sends the frame of an empty bitmap |
| Max7219Matrix.ScrollText | src/main/kotlin/com/anjo/driver/Max7219Matrix.kt:105-126 | uncancelled, a scroll renders every window 0..6n and then clears; cancelled, it shows the windows up to then, and clears unless it was in a delay |
| Max7219Matrix.ScrollShowsPicture | src/main/kotlin/com/anjo/driver/Max7219Matrix.kt:105-126 | in frame k a viewer sees picture column k + j at column j, and nothing in the last frame |
| Max7219Matrix.ScrollShowsGlyphs | src/main/kotlin/com/anjo/driver/Max7219Matrix.kt:105-126 | bit 7 - j mod 8 of digit register 1 + r of device N - 1 - j/8 is then row r of column (k + j) mod 6 of the glyph of character (k + j)/6, or 0 |
| Lcd.LcdDisplay.constructor | src/main/kotlin/com/anjo/driver/LcdDisplay.kt:34-51 | construction sends the initialization calls |
| Lcd.LcdDisplay.WriteNibble | src/main/kotlin/com/anjo/driver/LcdDisplay.kt:59-63 | a nibble is two bytes, E high then low, with the nibble in bits 4..7, backlight in bit 3, R/W low and RS in bit 0 |
| Lcd.LcdDisplay.WriteCommand | src/main/kotlin/com/anjo/driver/LcdDisplay.kt:65-72 | a command is its two nibbles, high first, RS = 0 |
| Lcd.LcdDisplay.WriteData | src/main/kotlin/com/anjo/driver/LcdDisplay.kt:74-81 | data are two nibbles, high first, RS = 1 |
| Lcd.LcdDisplay.InitializeLcd | src/main/kotlin/com/anjo/driver/LcdDisplay.kt:44-51 | the seven commands of initialization |
| Lcd.LcdDisplay.Write | src/main/kotlin/com/anjo/driver/LcdDisplay.kt:99-114 | the calls for clearing and for up to two lines of 16; no error stays recorded |
| Lcd.LcdDisplay.ScrollText | src/main/kotlin/com/anjo/driver/LcdDisplay.kt:116-136 | uncancelled, the calls for every window of the padded text and the final clearing; otherwise those for the windows up to the cancellation, and the clearing unless a delay was cancelled; that, and nothing else, is recorded as an error |
| Lcd.CallsArrive | src/main/kotlin/com/anjo/driver/LcdDisplay.kt:59-81 | on E's falling edges the bytes of any calls reach the chip as their nibbles, whatever the lines were before |
| Lcd.CallsOnlyWrite | src/main/kotlin/com/anjo/driver/LcdDisplay.kt:53-63 | no byte of any calls asks the chip to be read, and all of them switch the backlight the same way |
| Lcd.Initialized | src/main/kotlin/com/anjo/driver/LcdDisplay.kt:44-51 | from any mode, half a byte pending or not, initialization ends in aligned 4-bit mode, two lines, display on, no cursor, no shifting, blank memory, cursor home |
| Lcd.BusDecodesIff | src/main/kotlin/com/anjo/driver/LcdDisplay.kt:65-81 | any sequence of calls is accepted as exactly its registers and low bytes, staying aligned, iff none is a function set to 8 bits |
| Lcd.CallsDecodeIff | src/main/kotlin/com/anjo/driver/LcdDisplay.kt:65-81 | the same at the chip's side of the bus |
| Lcd.DriverIsUnderstood | src/main/kotlin/com/anjo/driver/LcdDisplay.kt:99-136 | everything write and scrollText send is accepted byte for byte |
| Lcd.WriteShowsScreen | src/main/kotlin/com/anjo/driver/LcdDisplay.kt:99-114 | after write the memory holds characters 0..15 on line 1, 16..31 on line 2, blanks everywhere else |
| Lcd.FrameShowsWindow | src/main/kotlin/com/anjo/driver/LcdDisplay.kt:125-127 | frame k puts at column a of line 1 the character k + a - 16 of the text, or a blank where there is none, and leaves the rest of the memory |
| Lcd.FramesShow | src/main/kotlin/com/anjo/driver/LcdDisplay.kt:124-130 | after n frames in a row the n-th window is on line 1 and line 2 is untouched |
| Lcd.ScrollEnds | src/main/kotlin/com/anjo/driver/LcdDisplay.kt:116-136 | a scroll ends on a blank display, ready for the next text; one cancelled in a delay leaves its last window on line 1 and line 2 untouched |
| CaptivePortal.UrlDecode | firmware/esp32/main/captive_portal.c:125-140 | terminates, reads nothing past the NUL, writes the decoded bytes that fit and a NUL and nothing else |
| CaptivePortal.DecodeEncoded | firmware/esp32/main/captive_portal.c:125-140 | decoding undoes the form serializer on every byte string |
| CaptivePortal.EscapeIsRead | firmware/esp32/main/captive_portal.c:128-131 | %hl is the byte 16h + l for digits of either case |
| CaptivePortal.BrokenEscapeIsRead | firmware/esp32/main/captive_portal.c:128-131 | what strtol makes of every other escape: a digit alone, behind white space or a plus, its negative behind a minus, else a NUL |
| CaptivePortal.DecodeCut | firmware/esp32/main/captive_portal.c:162-163 | an encoding cut at n bytes decodes to the original iff it is n + 2 bytes long and its text ends in "%" or "%2" |
| CaptivePortal.ExtractField | firmware/esp32/main/captive_portal.c:157-172 | the raw buffer holds what follows the first occurrence of the key, up to '&', at most 63 bytes |
| CaptivePortal.PortalPostHandler | firmware/esp32/main/captive_portal.c:148-182 | the handler's buffers compute what Handle says of the request; receiving fails iff the request is empty, and the name is missing iff the decoded ssid field of its first 255 bytes is empty |
| CaptivePortal.FormRoundTrip | firmware/esp32/main/captive_portal.c:148-182 | for all name and password the handler saves exactly both iff the name is not empty and both are NUL-free and fit |
| CaptivePortal.FormRefusedIff | firmware/esp32/main/captive_portal.c:177-180 | a form is refused for want of a name iff its name is empty or begins with a NUL |
| CaptivePortal.NamelessIsRefused | firmware/esp32/main/captive_portal.c:157-180 | so is every request that nowhere contains the field |
| Highlight.PiecesAreText | src/main/kotlin/com/anjo/web/templates/HtmlUtils.kt:13-23 | the pieces, marks and all, concatenate to the text |
| Highlight.MarksAreOccurrences | src/main/kotlin/com/anjo/web/templates/HtmlUtils.kt:15-21 | every marked piece is an occurrence of the term |
| Highlight.MarksCoverOccurrences | src/main/kotlin/com/anjo/web/templates/HtmlUtils.kt:15-22 | every occurrence starts inside a mark, none in a plain piece |
| Highlight.MarksAreMost | src/main/kotlin/com/anjo/web/templates/HtmlUtils.kt:13-23 | no choice of non-overlapping occurrences has more of them than there are marks |
| Highlight.CutPieces | src/main/kotlin/com/anjo/web/templates/HtmlUtils.kt:13-23 | the loop terminates with the pieces of those marks |
| Highlight.HighlightText | src/main/kotlin/com/anjo/web/templates/HtmlUtils.kt:9-25 | a null or empty term gives one plain piece; else plain and marked pieces take turns, each marked piece matches the term character by character, and every occurrence starts inside a marked piece; in every case the pieces are the text |
| FirmwareZone.StepKeeps | src/main/kotlin/com/anjo/zone/FirmwareZoneDriver.kt:19-58 | every atomic action keeps the books |
| FirmwareZone.RunsConserve | src/main/kotlin/com/anjo/zone/FirmwareZoneDriver.kt:19-58 | in every interleaving accepted = received + queue, at most 64 queued; each received message is in one hand, delivered once or lost once; each drain delivers in order |
| FirmwareZone.LossesAtMostEndedDrains | src/main/kotlin/com/anjo/zone/FirmwareZoneDriver.kt:26-35 | there are at most as many lost messages as ended drains |
| FirmwareZone.SessionSeesOrder | src/main/kotlin/com/anjo/zone/FirmwareZoneDriver.kt:23-37 | in every interleaving a session whose drains are launched safely sees its messages in the order of acceptance, whatever other sessions do |
| FirmwareZone.SessionAttachedOnceSeesOrder | src/main/kotlin/com/anjo/zone/FirmwareZoneDriver.kt:23-37 | in every interleaving a session attached no more than once does |
| FirmwareZone.RunsAccount | src/main/kotlin/com/anjo/zone/FirmwareZoneDriver.kt:23-42 | in every interleaving a drain at work is the current job, has yet to become it, or was overwritten |
| FirmwareZone.QueueSurvives | src/main/kotlin/com/anjo/zone/FirmwareZoneDriver.kt:39-42 | without a receive the queue only grows at its end, through any disconnects |
| FirmwareZone.NextSessionGetsBacklog | src/main/kotlin/com/anjo/zone/FirmwareZoneDriver.kt:26-30 | in every run after its launch in which no other drain receives and it is not cut off, a drain takes everything received since: the backlog first, whole and in order, then what was sent later |
| FirmwareZone.BacklogCanBeDelivered | src/main/kotlin/com/anjo/zone/FirmwareZoneDriver.kt:26-30 | such a run that delivers exactly the backlog always exists |
| FirmwareZone.ClosedForever | src/main/kotlin/com/anjo/zone/FirmwareZoneDriver.kt:70-72 | after stop nothing is accepted any more |
| FirmwareZoneDriver.CallsAreRuns | src/main/kotlin/com/anjo/zone/FirmwareZoneDriver.kt:19-72 | runs of whole calls are runs of atomic actions |
| FirmwareZoneDriver.OnlineMeansServed | src/main/kotlin/com/anjo/zone/FirmwareZoneDriver.kt:60-62 | of calls that do not overlap: at most one drain is at work, and ONLINE means that one is and serves the session that is set |
| FirmwareZoneDriver.OnlineIffServed | src/main/kotlin/com/anjo/zone/FirmwareZoneDriver.kt:60-62 | of calls that do not overlap: with no session attached while a drain of it may still receive, ONLINE is reported exactly while some drain is at work |
| FirmwareZoneDriver.DetachDropsNewest | src/main/kotlin/com/anjo/routing/FirmwareZoneRoutes.kt:18-25 | a stale session's detach takes the newest session off the zone |
| FirmwareZoneDriver.DetachLeaves | src/main/kotlin/com/anjo/zone/FirmwareZoneDriver.kt:23-42 | in every interleaving detach leaves at work exactly the drains whose attach is not over or whose job was overwritten |
| FirmwareZoneDriver.DetachReachesAllIff | src/main/kotlin/com/anjo/zone/FirmwareZoneDriver.kt:23-42 | between attach calls, a drain at work is not the current job, and survives detach, iff an overwritten drain is still at work |
| FirmwareZoneDriver.OnlineIff | src/main/kotlin/com/anjo/zone/FirmwareZoneDriver.kt:60-62 | in every interleaving ONLINE is reported iff a session is set and a drain is at work that is neither pending nor overwritten, or the current one has run to the end of a closed channel |
| FirmwareZoneDriver.OverlappingAttachLeaksDrain | src/main/kotlin/com/anjo/zone/FirmwareZoneDriver.kt:23-37 | any two sessions whose attach calls overlap can leave a drain at work beyond the reach of detach |
| FirmwareZoneDriver.LaunchKeepsOrderIff | src/main/kotlin/com/anjo/zone/FirmwareZoneDriver.kt:23-37 | in every interleaving, one more launch for a session keeps its messages in order, however things go on, iff no older drain of it may still receive, or the channel is closed with at most one message left for it |
| FirmwareZoneDriver.SessionSeesOrderIff | src/main/kotlin/com/anjo/zone/FirmwareZoneDriver.kt:23-37 | the same of whole attach calls, where the current job is cancelled first |
| FirmwareZoneDriver.DoubleAttachReorders | src/main/kotlin/com/anjo/zone/FirmwareZoneDriver.kt:23-37 | any session attached again while its first drain runs can see messages out of order |
| FirmwareZoneDriver.Driver.AttachSession | src/main/kotlin/com/anjo/zone/FirmwareZoneDriver.kt:23-37 | attach performs its four actions; its session is then set and its new drain is the only one at work |
| FirmwareZoneDriver.Driver.DetachSession | src/main/kotlin/com/anjo/zone/FirmwareZoneDriver.kt:39-42 | detach performs its two actions; then no session is set, no drain is at work, and the queue is as it was |
| FirmwareZoneDriver.Driver.SendMessage | src/main/kotlin/com/anjo/zone/FirmwareZoneDriver.kt:44-58 | true iff a session is set, the channel open and not full; then exactly this message is queued last; false changes nothing |
| FirmwareZoneDriver.Driver.Status | src/main/kotlin/com/anjo/zone/FirmwareZoneDriver.kt:60-62 | status reads ONLINE iff a session is set and some drain at work serves it |
| FirmwareZoneDriver.Driver.StopDriver | src/main/kotlin/com/anjo/zone/FirmwareZoneDriver.kt:70-72 | stop closes the channel |
| FirmwareZoneDriver.Driver.BeginDrain | src/main/kotlin/com/anjo/zone/FirmwareZoneDriver.kt:26-28 | a drain that is not cancelled begins its body |
| FirmwareZoneDriver.Driver.ReceiveNext | src/main/kotlin/com/anjo/zone/FirmwareZoneDriver.kt:28 | the drain takes the head of the queue into its hand |
| FirmwareZoneDriver.Driver.Sent | src/main/kotlin/com/anjo/zone/FirmwareZoneDriver.kt:29 | a completed send delivers the message in hand |
| FirmwareZoneDriver.Driver.Finish | src/main/kotlin/com/anjo/zone/FirmwareZoneDriver.kt:26-35 | an ending drain loses at most what it holds, and clears the session iff it has started and the session is its own |
| ScreenDriver.StepKeeps | src/main/kotlin/com/anjo/service/ScreenDriverService.kt:55-179 | every atomic section keeps locks, log and phases consistent |
| ScreenDriver.MutualExclusion | src/main/kotlin/com/anjo/service/ScreenDriverService.kt:127-140 | at most one render per zone is inside the locked block, whatever kinds and policies; no zone and the zone "broadcast" count as one |
| ScreenDriver.LogIsDisciplined | src/main/kotlin/com/anjo/service/ScreenDriverService.kt:119-150 | a mutex is taken only when free and released only by the request that took it, at most once each; every send and history row of a render, SKIP_NEW broadcasts included, falls in between; every event names the mutex of its request's zone |
| ScreenDriver.RefusedDoesNothing | src/main/kotlin/com/anjo/service/ScreenDriverService.kt:64-72 | a dropped or rejected request changes nothing and never takes, sends, records or cancels anything |
| ScreenDriver.DroppedIffBusy | src/main/kotlin/com/anjo/service/ScreenDriverService.kt:119-125 | SKIP_NEW drops a request exactly when another request for its zone holds the mutex |
| ScreenDriver.LockedAtRestIffAbandoned | src/main/kotlin/com/anjo/service/ScreenDriverService.kt:78-91 | at rest a mutex is locked iff a SKIP_NEW request for it was cancelled before its job started or while broadcasting |
| ScreenDriver.AbandonedKeepsLock | src/main/kotlin/com/anjo/service/ScreenDriverService.kt:78-91 | any SKIP_NEW display or broadcast can be cancelled so, and then nothing is under way and its mutex is locked |
| ScreenDriver.ZonelessFiresNeverSend | src/main/kotlin/com/anjo/service/ScreenDriverService.kt:197-205 | in every run a scheduled request without a zone sends nothing, though it is rendered and recorded |
| ScheduleLoops.CurrentLoopIff | src/main/kotlin/com/anjo/service/ScreenDriverService.kt:105-106 | a loop is the current job iff a fire of it has stored its job and no job has been stored, launched or forgotten since |
| ScheduleLoops.LoopCancelledIff | src/main/kotlin/com/anjo/service/ScreenDriverService.kt:75 | a loop is cancelled iff an admitted display or broadcast cancelled the current job while a fire of it was current, or somebody else cancelled it |
| ScheduleLoops.CancelledLoopIsOver | src/main/kotlin/com/anjo/service/SchedulerService.kt:126-132 | after a loop is cancelled at most one fire of it arrives, and none unless it was already awake |
| ScheduleLoops.LoopSurvivesIff | src/main/kotlin/com/anjo/service/SchedulerService.kt:118-136 | a loop with no fire under way can fire again iff it was never cancelled or is awake for one last fire |
| ScheduleLoops.PreemptedFireIsTheLast | src/main/kotlin/com/anjo/service/ScreenDriverService.kt:75-106 | a loop cancelled with a fire under way never fires again |
| ScheduleLoops.DisplayEndsLoop | src/main/kotlin/com/anjo/service/ScreenDriverService.kt:75-106 | any display or broadcast that is not dropped ends the loop whose first fire is current |
| ScreenDriver.InFlightIsExact | src/main/kotlin/com/anjo/service/ScreenDriverService.kt:131-150 | the in-flight counter is the number of immediate renders started and not finished |
| ScreenDriverService.UnlocksFindLocked | src/main/kotlin/com/anjo/service/ScreenDriverService.kt:145-149 | no unlock ever meets an unlocked mutex |
| ScreenDriverService.SoundMeansOnePerBlock | src/main/kotlin/com/anjo/service/ScreenDriverService.kt:127-140 | wherever the service can be, no two renders for one zone are in the block |
| ScreenDriverService.LockedMeansBusy | src/main/kotlin/com/anjo/service/ScreenDriverService.kt:119-125 | there the mutex of a request is locked exactly when a request for its zone holds it |
| ScreenDriverService.Service.DisplayImmediate | src/main/kotlin/com/anjo/service/ScreenDriverService.kt:55-82 | a request is turned away iff its zone is unavailable or, under SKIP_NEW, a request for its zone holds the mutex, and then locks, counter, log, current job, loops, schedule and other requests stay as they were; otherwise the current job, be it the loop of a schedule, is cancelled, the schedule forgotten and under SKIP_NEW exactly the mutex of its zone taken |
| ScreenDriverService.Service.WithMutex | src/main/kotlin/com/anjo/service/ScreenDriverService.kt:127-140 | the block waits iff it is INTERRUPT and a request for its zone holds the mutex; otherwise all its attempts and rows lie between taking and releasing, and no lock has changed |
| ScreenDriverService.Service.RenderImmediate | src/main/kotlin/com/anjo/service/ScreenDriverService.kt:131-150 | an undisturbed render waits iff it is INTERRUPT and a request for its zone holds the mutex; otherwise its mutex is free afterwards, the counter is what it was, and the log shows every attempt and the row, if any, before the release |
| ScreenDriverService.RenderDoneIs | src/main/kotlin/com/anjo/service/ScreenDriverService.kt:131-150 | that log in full: taking the zone's mutex under INTERRUPT, the sends to the zone, the rows, the release |
| ScreenDriverService.RenderLogIs | src/main/kotlin/com/anjo/service/ScreenDriverService.kt:152-179 | the same for a fire, which sends only if it has a zone |
| ScreenDriverService.Service.BroadcastImmediate | src/main/kotlin/com/anjo/service/ScreenDriverService.kt:84-91 | a completed broadcast has sent to its zones, recorded those that took it, and then released the "broadcast" mutex if it is SKIP_NEW |
| ScreenDriverService.Service.DisplayScheduled | src/main/kotlin/com/anjo/service/ScreenDriverService.kt:93-179 | a SKIP_NEW call whose zone is busy returns false and changes nothing; an INTERRUPT call then waits as the current job; otherwise the call returns whether its block succeeded, has sent only if it has a zone, and leaves its mutex free and no current job or schedule |
| ScreenDriverService.Service.ForgetSchedule | src/main/kotlin/com/anjo/service/ScreenDriverService.kt:173-176 | the end of a fire clears current schedule and job iff the current schedule is its own |
| Scheduler.AcceptedIntervalIsReadIff | src/main/kotlin/com/anjo/service/SchedulerService.kt:192-204 | an accepted interval parses to digits times 1000, 60000, 3600000 or 86400000 iff that fits in 64 bits; otherwise to nothing or the wrapped product |
| Scheduler.AcceptedIff | src/main/kotlin/com/anjo/validation/ScheduleValidators.kt:50-56 | accepted are exactly one digit or more followed by s, m, h or d |
| Scheduler.WrittenIntervalIsReadIff | src/main/kotlin/com/anjo/service/SchedulerService.kt:192-204 | n written in decimal with a unit is accepted, and read as n times the unit iff that fits in 64 bits |
| Scheduler.PaddingIsTrimmed | src/main/kotlin/com/anjo/service/SchedulerService.kt:193 | white space around an interval makes no difference to the scheduler |
| Scheduler.SignedIntervalIsRead | src/main/kotlin/com/anjo/service/SchedulerService.kt:192-204 | a signed interval, which the validator refuses, would be read with its sign |
| Scheduler.AcceptedIntervalCanBeNegative | src/main/kotlin/com/anjo/validation/ScheduleValidators.kt:50-56 | "1000000000000d" is accepted and parses to a negative interval |
| Scheduler.LaunchRecurring | src/main/kotlin/com/anjo/service/SchedulerService.kt:118-136 | the loop fires at exactly the ticks before expiry or exhaustion; without maxRuns at all of them if it never expires, at those up to the first past expiresAt, or at none if that is malformed; a malformed expiry's ERROR is overwritten by DONE; a cancelled loop writes DONE only if it was in a fire and the update goes through |
| Scheduler.FiresUpToMaxRuns | src/main/kotlin/com/anjo/service/SchedulerService.kt:126-132 | without an expiry the loop fires at a tick iff fewer fires than maxRuns have displayed before |
| Scheduler.DisplaysWithinMaxRuns | src/main/kotlin/com/anjo/service/SchedulerService.kt:150-151 | displayed fires never exceed maxRuns, and fires that display nothing do not count |
| Scheduler.FiresWithinExpiry | src/main/kotlin/com/anjo/service/SchedulerService.kt:138-148 | with a positive interval fires number at most (expiresAt - start) / interval |
| Scheduler.WrappedIntervalFiresUnbounded | src/main/kotlin/com/anjo/service/SchedulerService.kt:126-132 | with an interval of zero or less any number of fires is possible before expiry |
| Retry.Retrier.RetryWithBackoff | src/main/kotlin/com/anjo/service/RetryPolicy.kt:12-35 | at most max(1, maxAttempts) calls, all but the last failing; retries = calls - 1, or calls if a delay was cancelled; a failure is counted iff the exception is rethrown for want of attempts; the first delay is the initial one and each later one the rounded product of the one before, cut towards zero, within 64 bits and the maximum |
| Retry.OneFollows | src/main/kotlin/com/anjo/service/RetryPolicy.kt:32 | that determines the next delay for every factor, maximum and rounding |
| Retry.WholeFactorDelays | src/main/kotlin/com/anjo/service/RetryPolicy.kt:18-32 | with a whole factor f and a maximum of at most 2^53 the k-th delay is min(initial * f^k, max), whatever the rounding |
| Retry.DelaysNeverDecreaseIff | src/main/kotlin/com/anjo/service/RetryPolicy.kt:32 | for every configuration and rounding the delays never decrease iff the second is no smaller than the first and, under a negative factor, the third equals the second |
| Retry.BackoffNeverDecreasesIff | src/main/kotlin/com/anjo/service/RetryPolicy.kt:32 | for a factor of at least 1 and delays of at most 53 bits that holds iff initial <= max and a negative initial delay is cut back to itself |
| Retry.BeyondDoublesDelaysFall | src/main/kotlin/com/anjo/service/RetryPolicy.kt:32 | under Double rounding the factor 1.0 lowers a delay of 2^53 + 1 |
| History.HistoryTable.Insert | src/main/kotlin/com/anjo/db/HistoryRepository.kt:20-47 | a full table first loses a row with the smallest key, then the new row is added |
| History.HistoryTable.FindAll | src/main/kotlin/com/anjo/db/HistoryRepository.kt:72-89 | every row of the table that matches, as often as it is there, no other row, newest key first |
| History.HistoryTable.FindPaginated | src/main/kotlin/com/anjo/db/HistoryRepository.kt:49-70 | one page of some such answer, and the number of rows that match |
| History.HistoryTable.Browse | src/main/kotlin/com/anjo/routing/HistoryRoutes.kt:16-19 | without a page the first, without a size 20 rows; a page below 1 is the first, a size is brought into 1 to 200; then that page is looked up |
| History.NeverTooMany | src/main/kotlin/com/anjo/db/HistoryRepository.kt:24-34 | whatever the keys, after m inserts the table has min(m, 1000) rows, the newest among them |
| History.KeepsTheLastIff | src/main/kotlin/com/anjo/db/HistoryRepository.kt:20-47 | for every choice of the database the table is the last min(m, 1000) rows after each insert iff a row that has to go always has a key smaller than those of the 999 rows after it |
| History.KeepsTheLast | src/main/kotlin/com/anjo/db/HistoryRepository.kt:20-47 | with strictly increasing keys the table is exactly the last min(m, 1000) rows |
| History.ClockKeepsTheLastIff | src/main/kotlin/com/anjo/db/HistoryRepository.kt:20-47 | with the printed instants of a clock that only goes forward, the same holds iff no row that has to go is cut short against one of the 999 after it |
| Timestamps.LessIsTotal | src/main/kotlin/com/anjo/db/HistoryRepository.kt:27 | the string order of the keys is total |
| Timestamps.LessIsTransitive | src/main/kotlin/com/anjo/db/HistoryRepository.kt:27 | and transitive |
| Timestamps.StringOrderIsClockOrderIff | src/main/kotlin/com/anjo/db/HistoryRepository.kt:22 | of two instants printed with 0, 3, 6 or 9 fraction digits the earlier is the smaller string iff they do not lie in one second with its digits a proper prefix of the other's, and the greater string otherwise |
| Timestamps.PrintedAs | src/main/kotlin/com/anjo/db/HistoryRepository.kt:22 | an instant is printed as its zero-padded fields in ISO order with no, 3, 6 or 9 fraction digits, as few as are exact |
| Timestamps.BeforeIff | src/main/kotlin/com/anjo/db/HistoryRepository.kt:22 | instants are compared from the year down to the nanoseconds |
| Timestamps.FullSecondSortsLast | src/main/kotlin/com/anjo/db/HistoryRepository.kt:22 | an instant on the full second sorts behind every later instant of that second |
| History.AnswersAgree | src/main/kotlin/com/anjo/db/HistoryRepository.kt:65 | with distinct keys a query has only one answer |
| History.PagesCoverIffDistinct | src/main/kotlin/com/anjo/db/HistoryRepository.kt:49-89 | pages 1..pageCount concatenate to findAll, for every choice of the database, iff no two matching rows share a key |
| History.PagesMissNothingIff | src/main/kotlin/com/anjo/db/HistoryRepository.kt:49-70 | the pages together hold every matching row exactly once, for every choice of the database from page to page, iff no key has rows on both sides of a page boundary |
| History.PagesReachEnd | src/main/kotlin/com/anjo/web/templates/HistoryPage.kt:152 | the page count covers all rows, and no page of it is empty |
| ZoneRegistry.StepKeeps | src/main/kotlin/com/anjo/service/ZoneRegistry.kt:89-163 | no driver serves two zones, is stopped twice, or is stopped while in use |
| ZoneRegistry.LocalZonesStay | src/main/kotlin/com/anjo/service/ZoneRegistry.kt:89-163 | over any calls a local zone keeps its entry and driver |
| ZoneRegistry.DriversAccountedFor | src/main/kotlin/com/anjo/service/ZoneRegistry.kt:125-163 | a run-time driver has been stopped exactly once iff it is out of use and was not replaced by a registration, and never otherwise |
| ZoneRegistry.AllStoppedIff | src/main/kotlin/com/anjo/service/ZoneRegistry.kt:89-94 | all drivers out of use have been stopped once iff no registration hit a zone with a run-time driver |
| ZoneRegistry.RegistrationLeaksDriver | src/main/kotlin/com/anjo/service/ZoneRegistry.kt:89-94 | a network zone that registers a firmware display loses its driver unstopped |
| ZoneRegistry.Registry.constructor | src/main/kotlin/com/anjo/service/ZoneRegistry.kt:37-46 | the map holds exactly the configured zones, all local, each served by the driver of the last zone of its id |
| ZoneRegistry.Registry.Add | src/main/kotlin/com/anjo/service/ZoneRegistry.kt:144-163 | local zones and zones without ip are left alone; otherwise the zone has a new entry with its ip and a new network driver, the old driver, if any, is stopped, and all other zones stay |
| ZoneRegistry.Registry.Register | src/main/kotlin/com/anjo/service/ZoneRegistry.kt:89-94 | unless the zone is local it has a new entry with a new firmware driver, no driver is stopped, and all other zones stay |
| ZoneRegistry.Registry.Remove | src/main/kotlin/com/anjo/service/ZoneRegistry.kt:130-136 | exactly an existing zone that is not local is removed from the map, and its driver stopped; otherwise nothing changes |
| ZoneRegistry.Registry.Broadcast | src/main/kotlin/com/anjo/service/ZoneRegistry.kt:105-117 | every zone id is reported exactly once, as successful iff its send returned true |

## Left out

- Chip initialization tables, bus transfers below the byte, delays and pins: the model starts at the bytes, packets and frames handed to the bus.
- BLINK, FADE, REVERSE and default branches of the SSD1680, SSD1327 and paged drivers: they reuse the renderers above and would add easy members.
- ST7735, ST7789, ILI9225, HT16K33 and OledDisplay: no clean clipping law, or the same ideas again.
- An old scroll of LcdDisplay or Max7219Matrix that is still in a frame when a new text is written: the loops are modelled one at a time.
- Bus failures of LcdDisplay, and its lastMessage field.
- HD44780 cursor and display shift commands, fonts and CGRAM contents: the receiver tracks mode, lines, display switch, cursor, DDRAM and the bytes it accepts.
- Partial reads of a request body: the handler is taken to receive the first 255 bytes; saving to flash and the restart are not modelled.
- Unicode digits in toLongOrNull: ASCII digits only, which is all the validator lets through.
- History filters are an arbitrary predicate on rows, so SQL LIKE and its wildcards are not modelled; neither are concurrent inserts.
- ONESHOT and CRON timing, the tick loop, the activeJobs map and the webhook of SchedulerService.
- zoneRegistry.route returning false is ignored by the service, so a send in the log means an attempt, not a delivery.
- lastSentMessage, meters and timers of ScreenDriverService; a render that is cancelled on its way may still finish its block.
- Retry.Retrier.RetryWithBackoff: a factor that is not a number or infinite is left out.
- History.HistoryTable.FindPaginated: page and size are at least 1, which every caller sees to (HistoryTable.Browse).
- FirmwareZoneDriver.OnlineMeansServed: calls that do not overlap; FirmwareZoneDriver.OnlineIff covers the others.
- FirmwareZoneDriver.OnlineIffServed: the same, and sessions attached once at a time.
- Timestamps.StringOrderIsClockOrderIff: years 0 to 9999, which are printed without a sign.
- ZoneRegistry.register (used by tests), check-then-act races inside removeZone, and the drivers' own behaviour on stop.
- HTTP routes, templates other than highlightText, configuration, metrics, JSON, mDNS, WiFi, NVS and OTA.
