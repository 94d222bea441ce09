# gridui in Dafny

This project models the screen transport and rendering bridge of `gridui`.
An application thread pushes complete screen snapshots (a row-major vector of
glyphs plus a width) to a render thread that owns the native window. The
render thread reports normalised input events back. There are four parts:

- **Glyph codes** (`glyph_code.dfy`). The compact `u32` encoding of characters
  follows `src/glyphcode.rs`: `from_char`, `as_char`, and the string
  conversions `to_string` and `from_str`. `from_char` and `as_char` are
  functions. The two string conversions are methods with the source's early-exit
  loops, proved equal to specification functions built from a generic
  `Traverse` (`wrappers.dfy`).
- **Glyph parts** (`glyph_parts.dfy`). The mapping from a glyph code to
  atlas pieces in `src/glyph_parts.rs`.
- **Windows backend** (`windows_ui.dfy`). This is `src/gridui.rs` without the
  Win32 calls. `MainFrame` is a class holding the render-thread state, the two
  channel queues, the posted-message queue and a repaint counter. Each window
  message handler is a method with a `modifies` clause. `WindowsGridUi` is the
  application-side handle. WM_PAINT is a method that returns the list of
  `text_out` calls and filler rectangles it would draw.
- **X11 backend** (`x11_ui.dfy`). This is the render loop of `src/x11.rs`
  without Xlib. `Transport` holds the screen channel, the input channel and the
  non-blocking signal pipe (as a count of unread bytes). `GridUi` is the
  application-side handle. `RenderLoop.Step` is one turn of `'event_loop`.
  `ExposeWalk` is the glyph walk of the Expose handler.

Shared value types are in `screen_model.dfy`: `Glyph`, `Screen`, `InputEvent`,
the last-write-wins fold `AfterReceiving` and row-major placement `CellOf`.
`ints.dfy` has the Rust integer widths and casts, plus exclusive or on
naturals.

Behaviour of the code that a reader might not expect, kept as written:

- The X11 backend never sends an input event. The input sender is created and
  dropped, but nothing is ever put on it. Key presses are only logged, and a
  close request ends the loop without sending `Close`. `RenderLoop.Step`
  proves that no path changes the input channel.
- On X11, dropping the application handle does not wake the render loop. The
  loop sees that the channel is disconnected only while a signal byte is
  pending (`DisconnectScenario`, `SilentDropScenario`).
- A screen of width 0 draws nothing on Windows. On X11 it draws every glyph on
  row 0, because the column counter never reaches the width
  (`X11Ui.ZeroWidthSingleRow`).
- Glyph code 19 (the digit 9) maps to atlas piece `DIGITS_START + 10`, skipping
  `DIGITS_START + 9`. The model keeps this as written.
- On Windows, the pixel column at `x = max_filled_x` is painted by nothing in
  the grid's rows `0..max_filled_y`. The glyphs end at `max_filled_x`, and the
  right filler starts at `max_filled_x + 1` (`WindowsUi.UnpaintedColumn`).

Bit operations in `as_char` are written as arithmetic. `c & 0x0f` becomes
`c % 16`, and `(c & 0x0ff0) >> 4` becomes `(c % 0x1000) / 16`; both are
equivalent for every `u32`. The XOR that builds the upper-case range bounds is
kept as `Xor` with lemmas.

## Model

| member | source | states |
|---|---|---|
| Ints.AsU32 | src/gridui.rs:121-122 | `as u32` keeps the value modulo 2^32 and is the identity on values already in range |
| Ints.AsI32 | src/gridui.rs:124 | `u32 as i32` has the same bits: congruent modulo 2^32, the identity below 2^31, negative from 2^31 up |
| Ints.XorSetsClearBit | src/glyphcode.rs:49-51 | xor with 2^k adds 2^k to any value below 2^k |
| Ints.XorClearsSetBit | src/glyphcode.rs:49-51 | xor with 2^k removes 2^k again from such a value |
| ScreenModel.AfterReceiving | src/x11.rs:174-184 | the screen kept after a run of receives is the current one or one of those received |
| ScreenModel.LastWriteWins | src/gridui.rs:318-333 | receiving a sequence of screens one after another leaves the newest one, or the current one if none arrived |
| ScreenModel.CellOfRowMajor | src/gridui.rs:155-156 | glyph `r * width + c` is in column `c`, row `r` when `c < width` |
| ScreenModel.CellOfInjective | src/gridui.rs:155-156 | no two glyph indices share a cell |
| GlyphCode.CaseMaskConstants | src/glyphcode.rs:49-51 | the upper-case bounds are the lower-case bounds with bit 0x2000 set: 0x3000 and 0x31A0 |
| GlyphCode.FromChar | src/glyphcode.rs:6-39 | `from_char`'s table as written (`<< 4` as ·16): every code it gives is below 20 or a 16-aligned code in one of the two letter ranges |
| GlyphCode.AsChar | src/glyphcode.rs:41-80 | `as_char`'s table as written, masks and shifts as arithmetic: every character it gives is a supported one |
| GlyphCode.FromCharLetters | src/glyphcode.rs:7-13 | `a`..`z` map to 0x1000 + 16·index and `A`..`Z` to 0x3000 + 16·index |
| GlyphCode.FromCharSymbols | src/glyphcode.rs:15-25 | the ten symbols ` _-.,/\:;@` map to 0..9 in that order |
| GlyphCode.FromCharDigits | src/glyphcode.rs:27-36 | the digits `0`..`9` map to 10..19 in order |
| GlyphCode.FromCharDefinedIff | src/glyphcode.rs:6-39 | `from_char` is defined exactly on letters, digits and the ten symbols |
| GlyphCode.CaseBitFlip | src/glyphcode.rs:49-54 | the upper-case code of a letter is its lower-case code xor 0x2000, and the reverse |
| GlyphCode.LowerRoundTrip | src/glyphcode.rs:42-47 | every lower-case letter code decodes to its letter |
| GlyphCode.UpperRoundTrip | src/glyphcode.rs:49-54 | every upper-case letter code decodes to its letter |
| GlyphCode.SymbolRoundTrip | src/glyphcode.rs:56-79 | every symbol and digit code decodes to its character |
| GlyphCode.CharRoundTrip | src/glyphcode.rs:6-80 | `as_char(from_char(ch)) == Some(ch)` for every supported character |
| GlyphCode.CodeRoundTrip | src/glyphcode.rs:6-80 | `from_char(as_char(code)) == Some(code)` for every decodable code |
| GlyphCode.AsCharInjective | src/glyphcode.rs:41-80 | two codes that decode to the same character are equal |
| GlyphCode.AsCharNoneIff | src/glyphcode.rs:41-80 | `as_char` fails exactly on codes in a letter range with low nibble set, and on codes from 20 outside both letter ranges |
| GlyphCode.AsCharImage | src/glyphcode.rs:41-80 | a code decodes iff it is `from_char` of some supported character |
| GlyphCode.Utf8LenOne | src/glyphcode.rs:98 | a grapheme is one byte long iff it is a single character below 0x80 |
| GlyphCode.EncodeGrapheme | src/glyphcode.rs:97-105 | a grapheme encodes iff it is one supported character, and then to that character's code |
| GlyphCode.ToString | src/glyphcode.rs:82-92 | the loop returns exactly `DecodeCodes`: None at the first undecodable code, else all characters in order |
| GlyphCode.FromStr | src/glyphcode.rs:94-108 | the loop returns exactly `EncodeGraphemes`: None at the first grapheme that is not one byte or not supported, else all codes in order |
| GlyphCode.DecodeCodesSpec | src/glyphcode.rs:82-92 | decoding fails iff some code is undecodable; otherwise it has the same length, each character decoded from its code |
| GlyphCode.EncodeGraphemesSpec | src/glyphcode.rs:94-108 | encoding fails iff some grapheme does not encode; otherwise each code encodes its grapheme |
| GlyphCode.StringRoundTrip | src/glyphcode.rs:115-118 | whenever `from_str` succeeds, `to_string` of its result gives back the original text |
| GlyphCode.TextRoundTrip | src/glyphcode.rs:94-108 | text of single-character graphemes encodes iff every character is supported, and then decodes back to itself |
| GlyphCode.FromStrExamples | src/glyphcode.rs:115-124 | "abc" and "Abc" encode to the codes the test expects |
| GlyphCode.ToStringExamples | src/glyphcode.rs:115-124 | the codes the test expects decode back to "abc" and "Abc" |
| GlyphParts.GlyphToParts | src/glyph_parts.rs:7-36 | one part exactly for codes 0..19, three otherwise; a single part lies between SYMBOLS_1 and DIGITS_START + 10 |
| GlyphParts.ConstantValues | src/glyph_parts.rs:2-5 | SYMBOLS_1 is 129 and DIGITS_START is 139 |
| GlyphParts.SimpleParts | src/glyph_parts.rs:8-35 | symbols use SYMBOLS_1 + code, digits 0..8 use DIGITS_START + digit, digit 9 uses DIGITS_START + 10 |
| GlyphParts.FallbackParts | src/glyph_parts.rs:30-32 | every code from 20 up gets the pieces [0, 1, 19] |
| GlyphParts.LettersUsePlaceholder | src/glyph_parts.rs:30-32 | every letter's code gets the placeholder pieces |
| GlyphParts.SinglePartOutsideMissingPieces | src/glyph_parts.rs:2-35 | a single part is never one of the 128 missing-character pieces |
| GlyphParts.PartsInjective | src/glyph_parts.rs:8-29 | distinct symbol and digit codes use distinct pieces |
| WindowsUi.PixelToCell | src/gridui.rs:194-196 | the `as u32` casts and truncating divisions of the mouse and size handlers: the cell found has a pixel rectangle containing the cast point |
| WindowsUi.ClickExample | src/gridui.rs:193-199 | with 30-pixel cells, pixel (20, 40) is cell (1, 1) |
| WindowsUi.GridSizeFitsI32 | src/gridui.rs:119-131 | a grid size fits in i32 unchanged and is never (-1, -1), so the first WM_SIZE is always announced |
| WindowsUi.WindowsKeycodeToCharacter | src/gridui.rs:210-219 | letter keys give lower-case letter codes, digit keys 10..19, the space bar 0: never an upper-case code |
| WindowsUi.KeycodeMapping | src/gridui.rs:210-219 | exactly letter, digit and space keys map; each gives `from_char` of its (lower-case) character, which `as_char` decodes back |
| WindowsUi.TextAt | src/gridui.rs:153-162 | the `text_out` of one glyph, at its row-major cell in its colours: the character drawn is always supported, and for a decodable code it is the character with that code |
| WindowsUi.MaxFilledX | src/gridui.rs:168 | `width * grid_width` in u32: the true right extent exactly when it fits in 32 bits |
| WindowsUi.MaxFilledY | src/gridui.rs:169 | the u32 row count times `grid_height`, wrapped to u32, and 0 without width: the true product exactly when it fits in 32 bits |
| WindowsUi.FillerRects | src/gridui.rs:165-179 | no fillers without a client rectangle; with one, two rectangles that paint exactly the client pixels outside columns `0..=max_filled_x` of rows `0..max_filled_y` |
| WindowsUi.PaintGlyphs | src/gridui.rs:153-164 | the `text_out` loop over rows of `width` glyphs: one call per glyph, in order, each `TextAt` of its index; none without width |
| WindowsUi.CellsInsideFilledExtents | src/gridui.rs:153-169 | on a well-formed screen every cell lies inside the extents the filler rectangles start from |
| WindowsUi.PartialRowUnderFiller | src/gridui.rs:167-178 | an incomplete last row starts at or below the lower filler's top edge |
| WindowsUi.UnpaintedColumn | src/gridui.rs:168-179 | in the grid's rows, neither filler paints the column at `x = max_filled_x` |
| WindowsUi.EmptyScreenFills | src/gridui.rs:166-178 | with width 0 the fillers start at the origin and cover the client area |
| WindowsUi.MainFrame.constructor | src/gridui.rs:270-284 | the window starts with the empty screen, announced size (-1, -1) and empty queues |
| WindowsUi.MainFrame.OnSize | src/gridui.rs:119-131 | sends Size(cols, rows) and records it exactly when the size differs from the last one sent; nothing else changes |
| WindowsUi.MainFrame.OnDestroy | src/gridui.rs:135-140 | posts quit and sends Close |
| WindowsUi.MainFrame.OnLeftButtonDown | src/gridui.rs:193-199 | sends MouseDown with the truncated cell of the pointer |
| WindowsUi.MainFrame.OnLeftButtonUp | src/gridui.rs:202-208 | sends MouseUp with the truncated cell of the pointer |
| WindowsUi.MainFrame.OnKeyDown | src/gridui.rs:222-231 | sends KeyDown exactly for mappable keys and always reports the key handled |
| WindowsUi.MainFrame.OnKeyUp | src/gridui.rs:234-242 | sends KeyUp exactly for mappable keys and always reports the key handled |
| WindowsUi.MainFrame.CheckForNewScreen | src/gridui.rs:318-333 | empties the screen queue, shows the newest screen, and asks for one repaint iff a screen arrived |
| WindowsUi.MainFrame.OnMessage | src/gridui.rs:245-252 | WM_CHECK_SCREENS checks for screens (one repaint iff a screen was queued) and returns Some(0); any other message returns None and leaves the state, the queues and the repaint count unchanged |
| WindowsUi.MainFrame.DispatchPosted | src/gridui.rs:362 | the message loop hands the oldest posted message to the window procedure; a dispatched WM_CHECK_SCREENS with queued screens shows the newest and asks for exactly one repaint |
| WindowsUi.MainFrame.OnPaint | src/gridui.rs:144-184 | one `text_out` per glyph when the width is non-zero, at its row-major cell origin, decoded or a space; then the two filler rectangles from the u32 extents |
| WindowsUi.WindowsGridUi.constructor | src/gridui.rs:348-370 | the handle owns a fresh window that has been shown and painted once: the empty screen, the grid size of the first client area announced, and that one Size event queued; no screens, no posted messages, no repaint requested, no quit posted |
| WindowsUi.WindowsGridUi.SendScreen | src/gridui.rs:374-377 | appends the screen and posts WM_CHECK_SCREENS; the displayed screen does not change yet |
| WindowsUi.WindowsGridUi.GetInputEvent | src/gridui.rs:379-381 | returns events in the order they were sent, each once; nothing else in the window changes |
| X11Ui.AtlasGlyphCount | src/x11.rs:145-147 | `(len as u32 * 8) / 800` in u32: the number of whole 800-bit glyphs in the wrapped bit count |
| X11Ui.AtlasGlyphCountExact | src/x11.rs:144-147 | without overflow, the atlas holds one glyph per 100 bytes |
| X11Ui.DrawAt | src/x11.rs:250-262 | the `XCopyPlane` for glyph k: a whole atlas piece, one of the first 150, copied onto a whole 20x40 cell in the glyph's colours |
| X11Ui.ExposeWalk | src/x11.rs:248-263 | one copy per glyph, in order, from the first atlas piece of its code, at 20·x, 40·y of the counters' cell |
| X11Ui.WalkRowMajor | src/x11.rs:248-263 | with a width, glyph `r * width + c` is drawn at (20·c, 40·r) |
| X11Ui.ZeroWidthSingleRow | src/x11.rs:258-262 | with width 0, glyph k is drawn at (20·k, 0) |
| X11Ui.FallbackDrawsPieceZero | src/x11.rs:254-256 | a code from 20 up is drawn from atlas row 0 |
| X11Ui.SimpleGlyphSource | src/x11.rs:254-256 | symbols and digits are drawn from their own pieces, between SYMBOLS_1 and DIGITS_START + 10 |
| X11Ui.DrawsInsideAtlas | src/x11.rs:144-148 | an atlas of at least 15000 bytes (without u32 wrap) holds at least 150 glyphs, and every copy reads inside the bitmap of `40 * glyph_count` rows |
| X11Ui.Transport.ReadPipe | src/x11.rs:166-173 | a non-blocking read returns -1 on an empty pipe, otherwise takes up to `count` bytes |
| X11Ui.Transport.TryRecv | src/x11.rs:174-185 | returns queued screens first, then Empty or Disconnected by whether the sender is alive |
| X11Ui.GridUi.constructor | src/x11.rs:53-73 | both channels and the pipe start empty with both ends alive |
| X11Ui.GridUi.SendScreen | src/x11.rs:75-82 | succeeds iff the render thread is still there, and then appends the screen and one signal byte |
| X11Ui.GridUi.Drop | src/x11.rs:44-50 | dropping the handle closes the screen sender and the input receiver; the pipe stays open |
| X11Ui.RenderLoop.constructor | src/x11.rs:142-148 | the loop starts with the empty screen and the atlas glyph count `(bytes*8)/800` in u32 |
| X11Ui.RenderLoop.DrainSignalPipe | src/x11.rs:166-173 | empties the pipe in ceil(bytes/10) + 1 reads |
| X11Ui.RenderLoop.DrainScreens | src/x11.rs:174-185 | empties the channel, keeps the newest screen, needs an Expose iff a screen arrived, and reports disconnection iff the sender is gone |
| X11Ui.RenderLoop.Step | src/x11.rs:150-268 | waiting, signal handling (drain, then quit or queue one Expose), delete request (quit), Expose (draw the screen) and other events (ignored); no path sends an input event |

## Left out

- The size of the Windows client area when the window is first shown is a parameter of `WindowsGridUi`'s constructor, because the system chooses it. The WM_PAINT that `update` sends draws nothing the model keeps.
- Window creation, window classes, fonts (`on_create`), the X display and atoms setup, colours and brushes: calls into the platform that carry no logic of the bridge.
- Threads and blocking: each thread's turns are method calls in a chosen order; `poll` with no timeout appears as the `Blocked` outcome.
- The `RefCell` `try_borrow` failure paths of `with_state` and `with_state_mut`: the window procedure is not re-entered in this model, so the borrows always succeed.
- Grapheme segmentation: `FromStr` takes the graphemes as input, because Unicode segmentation is a library call.
- The root `gridui.rs` application, `src/lib.rs`, the `print`/`println` logging and the infinite `x11test` loop are not part of this model.
- Pixel coordinates are unbounded integers: the `isize`/`i32` products in `text_out`, `rect` and `XCopyPlane` are not wrapped, and the X11 `u32` counters never reach 2^32 cells.
- The capacity of the signal pipe: a write into a full pipe is not modelled; every `send_screen` adds one byte.
- WindowsUi.WindowsGridUi.GetInputEvent: returns None where `get_input_event` would block, and does not model the panic when the window thread is gone.
- X11Ui.GridUi.SendScreen: the panic when the render thread is gone is the result `false`, with nothing sent.
- The end of the Windows message loop: `PostQuitMessage` is recorded in `quitPosted`, but the loop that stops on WM_QUIT belongs to the windowing library, which is not part of this model. Handlers can still be called after WM_DESTROY, so events may follow `Close` in the input channel.
