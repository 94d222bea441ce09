/**
 * The X11 render backend with the Xlib calls taken out. The application side
 * (`GridUi`) pushes a screen onto the channel and writes one byte to a
 * non-blocking signal pipe. The render thread (`RenderLoop`) waits until the
 * display has events or the pipe is readable. It then empties the pipe, drains
 * the channel and sends itself an Expose when a screen arrived. On Expose it
 * copies one atlas piece per glyph onto the window.
 */
module X11Ui {
  import opened Ints
  import opened ScreenModel
  import GlyphParts

  /** Bytes taken from the pipe per `read` call. */
  const READ_CHUNK: nat := 10

  /** A cell, and an atlas piece, is 20 pixels wide and 40 high. */
  const CELL_WIDTH: nat := 20
  const CELL_HEIGHT: nat := 40
  const BITS_PER_GLYPH: nat := 20 * 40

  /** `format` of a client message whose data are 32-bit words. */
  const FORMAT_32: int := 32

  /** What `try_recv` reports: a screen, nothing yet, or a channel whose sender is gone. */
  datatype TryRecvResult = Received(screen: Screen) | Empty | Disconnected

  /** The X events the loop tells apart. */
  datatype XEvent =
    | ClientMessage(messageType: int, format: int, protocol: int)
    | KeyPress(keycode: int)
    | Expose
    | Other

  /** One `XCopyPlane` call: the atlas row it copies from, where it puts the piece, in which colours. */
  datatype CopyPlane = CopyPlane(srcY: int, destX: int, destY: int, foreground: u32, background: u32)

  /** What one turn of the event loop did. */
  datatype Outcome =
    | Blocked                          // poll would wait: no event and no signal
    | Woke(needExpose: bool)           // the signal was handled
    | Quit                             // the loop ended
    | Dispatched(draws: seq<CopyPlane>) // an event was handled; draws are empty except for Expose

  // ---------------------------------------------------------------------------
  // The font atlas

  /**
   * Glyphs in an atlas of `byteLen` bytes: `(len as u32 * 8) / (20 * 40)`, all in u32.
   * It is the number of whole 800-bit glyphs in the bit count as wrapped to 32 bits.
   */
  function AtlasGlyphCount(byteLen: nat): (r: u32)
    ensures r * BITS_PER_GLYPH <= AsU32(AsU32(byteLen) * 8) < (r + 1) * BITS_PER_GLYPH
  {
    DivU32(AsU32(AsU32(byteLen) * 8), BITS_PER_GLYPH)
  }

  /** When nothing wraps, every hundred bytes are one 20x40 glyph of one bit per pixel. */
  lemma AtlasGlyphCountExact(byteLen: nat)
    requires byteLen * 8 < U32_LIMIT
    ensures AtlasGlyphCount(byteLen) == byteLen / 100
  {
    var q, r := byteLen / 100, byteLen % 100;
    assert byteLen * 8 == 800 * q + 8 * r;
    DivModUnique(byteLen * 8, 800, q, 8 * r);
  }

  // ---------------------------------------------------------------------------
  // The Expose walk

  /**
   * The cell the walk's counters give glyph `k`: row-major when the screen has a width.
   * With width 0 the column counter never wraps, so every glyph lands on row 0.
   */
  function WalkCell(k: nat, width: nat): (nat, nat)
  {
    if width > 0 then CellOf(k, width) else (k, 0)
  }

  /**
   * The copy that draws glyph `k`: the first atlas piece of its code, at its cell's
   * pixel origin, in the glyph's colours. It always copies a whole piece, one of the
   * first `DIGITS_START + 11`, onto a whole cell.
   */
  function DrawAt(screen: Screen, k: nat): (r: CopyPlane)
    requires k < |screen.glyphs|
    ensures 0 <= r.srcY <= CELL_HEIGHT * (GlyphParts.DIGITS_START + 10) && r.srcY % CELL_HEIGHT == 0
    ensures r.destX % CELL_WIDTH == 0 && r.destY % CELL_HEIGHT == 0
    ensures r.foreground == screen.glyphs[k].foreground && r.background == screen.glyphs[k].background
  {
    var g := screen.glyphs[k];
    assert |GlyphParts.GlyphToParts(g.character)| == 3 ==> GlyphParts.GlyphToParts(g.character)[0] == 0 by {
      if |GlyphParts.GlyphToParts(g.character)| == 3 {
        GlyphParts.FallbackParts(g.character);
      }
    }
    var (x, y) := WalkCell(k, screen.width);
    CopyPlane(CELL_HEIGHT * GlyphParts.GlyphToParts(g.character)[0], x * CELL_WIDTH, y * CELL_HEIGHT, g.foreground, g.background)
  }

  /** The Expose handler: one copy per glyph, in order, walking columns and rows with two counters. */
  method ExposeWalk(screen: Screen) returns (draws: seq<CopyPlane>)
    ensures |draws| == |screen.glyphs|
    ensures forall k :: 0 <= k < |draws| ==> draws[k] == DrawAt(screen, k)
  {
    var x: nat := 0;
    var y: nat := 0;
    draws := [];
    for k := 0 to |screen.glyphs|
      invariant |draws| == k
      invariant forall j :: 0 <= j < k ==> draws[j] == DrawAt(screen, j)
      invariant (x, y) == WalkCell(k, screen.width)
      invariant screen.width > 0 ==> x < screen.width
    {
      var glyph := screen.glyphs[k];
      var parts := GlyphParts.GlyphToParts(glyph.character);
      draws := draws + [CopyPlane(CELL_HEIGHT * parts[0], x * CELL_WIDTH, y * CELL_HEIGHT, glyph.foreground, glyph.background)];
      x := x + 1;
      if x == screen.width {
        x := 0;
        y := y + 1;
      }
      if screen.width > 0 {
        StepCell(k, screen.width, x, y);
      }
    }
  }

  /** Advancing the counters by one cell, wrapping at the width, tracks the next index. */
  lemma StepCell(k: nat, width: nat, x: nat, y: nat)
    requires width > 0 && x < width
    requires (x == 0 && y == k / width + 1 && k % width == width - 1) || (x == k % width + 1 && y == k / width)
    ensures CellOf(k + 1, width) == (x, y)
  {
    assert k == width * (k / width) + k % width;
    DivModUnique(k + 1, width, y, x);
  }

  /** With a width the walk is row-major, as on the other backend; and the column counter stays below the width. */
  lemma WalkRowMajor(screen: Screen, r: nat, c: nat)
    requires c < screen.width && r * screen.width + c < |screen.glyphs|
    ensures DrawAt(screen, r * screen.width + c).destX == c * CELL_WIDTH
    ensures DrawAt(screen, r * screen.width + c).destY == r * CELL_HEIGHT
  {
    CellOfRowMajor(r, c, screen.width);
  }

  /** A screen of width 0 is drawn as one long row, where the other backend draws nothing. */
  lemma ZeroWidthSingleRow(screen: Screen, k: nat)
    requires screen.width == 0 && k < |screen.glyphs|
    ensures DrawAt(screen, k).destX == k * CELL_WIDTH && DrawAt(screen, k).destY == 0
  {
  }

  /** Only the first part is copied: a code without its own bitmap draws atlas piece 0. */
  lemma FallbackDrawsPieceZero(screen: Screen, k: nat)
    requires k < |screen.glyphs| && screen.glyphs[k].character > 19
    ensures DrawAt(screen, k).srcY == 0
  {
    GlyphParts.FallbackParts(screen.glyphs[k].character);
  }

  /** Symbols and digits are copied from their own pieces. */
  lemma SimpleGlyphSource(screen: Screen, k: nat)
    requires k < |screen.glyphs| && screen.glyphs[k].character <= 19
    ensures DrawAt(screen, k).srcY == CELL_HEIGHT * GlyphParts.GlyphToParts(screen.glyphs[k].character)[0]
    ensures GlyphParts.SYMBOLS_1 * CELL_HEIGHT <= DrawAt(screen, k).srcY <= (GlyphParts.DIGITS_START + 10) * CELL_HEIGHT
  {
  }

  /**
   * An atlas of at least 15000 bytes holds at least 150 glyphs, so every copy
   * reads inside the bitmap of height `40 * glyph_count`.
   */
  lemma DrawsInsideAtlas(screen: Screen, k: nat, atlasBytes: nat)
    requires k < |screen.glyphs| && 15000 <= atlasBytes && atlasBytes * 8 < U32_LIMIT
    ensures 0 <= DrawAt(screen, k).srcY && DrawAt(screen, k).srcY + CELL_HEIGHT <= CELL_HEIGHT * AtlasGlyphCount(atlasBytes)
  {
    AtlasGlyphCountExact(atlasBytes);
    var glyphCount := AtlasGlyphCount(atlasBytes);
    assert glyphCount >= GlyphParts.DIGITS_START + 11;
    var parts := GlyphParts.GlyphToParts(screen.glyphs[k].character);
    if |parts| == 3 {
      GlyphParts.FallbackParts(screen.glyphs[k].character);
    }
    assert parts[0] + 1 <= glyphCount;
    MulMonotone(CELL_HEIGHT, parts[0] + 1, glyphCount);
  }

  // ---------------------------------------------------------------------------
  // The shared ends

  /** The screen channel, the input channel and the signal pipe between the two threads. */
  class Transport {
    /** Screens sent and not yet received, oldest first. */
    var screens: seq<Screen>
    var senderAlive: bool
    var receiverAlive: bool
    /** Unread bytes in the signal pipe. */
    var pipeBytes: nat
    /** Input events sent and not yet read. */
    var inputEvents: seq<InputEvent>
    var inputSenderAlive: bool
    var inputReceiverAlive: bool

    constructor ()
      ensures screens == [] && senderAlive && receiverAlive && pipeBytes == 0
      ensures inputEvents == [] && inputSenderAlive && inputReceiverAlive
    {
      screens := [];
      senderAlive := true;
      receiverAlive := true;
      pipeBytes := 0;
      inputEvents := [];
      inputSenderAlive := true;
      inputReceiverAlive := true;
    }

    /** A non-blocking `read` of up to `count` bytes: -1 when the pipe is empty, otherwise how many were taken. */
    method ReadPipe(count: nat) returns (n: int)
      requires count > 0
      modifies this`pipeBytes
      ensures n == if old(pipeBytes) == 0 then -1 else Min(count, old(pipeBytes))
      ensures pipeBytes == if n < 0 then old(pipeBytes) else old(pipeBytes) - n
    {
      if pipeBytes == 0 {
        return -1;
      }
      n := Min(count, pipeBytes);
      pipeBytes := pipeBytes - n;
    }

    /** `try_recv`: the oldest screen if there is one; Disconnected only once the channel is empty and the sender is gone. */
    method TryRecv() returns (r: TryRecvResult)
      modifies this`screens
      ensures old(screens) != [] ==> r == Received(old(screens)[0]) && screens == old(screens)[1..]
      ensures old(screens) == [] ==> r == (if senderAlive then Empty else Disconnected) && screens == []
    {
      if screens != [] {
        r := Received(screens[0]);
        screens := screens[1..];
      } else if senderAlive {
        r := Empty;
      } else {
        r := Disconnected;
      }
    }
  }

  // ---------------------------------------------------------------------------
  // The application side

  class GridUi {
    const transport: Transport

    constructor ()
      ensures fresh(transport)
      ensures transport.screens == [] && transport.senderAlive && transport.receiverAlive && transport.pipeBytes == 0
      ensures transport.inputEvents == [] && transport.inputSenderAlive && transport.inputReceiverAlive
    {
      transport := new Transport();
    }

    /**
     * Sends the screen, then writes one signal byte. `ok` is false where the
     * source panics because the render thread is gone; then nothing is sent.
     */
    method SendScreen(screen: Screen) returns (ok: bool)
      requires transport.senderAlive
      modifies transport
      ensures ok == old(transport.receiverAlive)
      ensures ok ==> transport.screens == old(transport.screens) + [screen] && transport.pipeBytes == old(transport.pipeBytes) + 1
      ensures !ok ==> transport.screens == old(transport.screens) && transport.pipeBytes == old(transport.pipeBytes)
      ensures transport.senderAlive && transport.receiverAlive == old(transport.receiverAlive)
      ensures transport.inputEvents == old(transport.inputEvents) && transport.inputSenderAlive == old(transport.inputSenderAlive)
      ensures transport.inputReceiverAlive == old(transport.inputReceiverAlive)
    {
      if !transport.receiverAlive {
        return false;
      }
      transport.screens := transport.screens + [screen];
      transport.pipeBytes := transport.pipeBytes + 1;
      return true;
    }

    /**
     * Dropping the handle drops the sending end of the screen channel and the
     * receiving end of the input channel; the pipe stays open.
     */
    method Drop()
      modifies transport
      ensures !transport.senderAlive && !transport.inputReceiverAlive
      ensures transport.screens == old(transport.screens) && transport.pipeBytes == old(transport.pipeBytes)
      ensures transport.receiverAlive == old(transport.receiverAlive)
      ensures transport.inputEvents == old(transport.inputEvents) && transport.inputSenderAlive == old(transport.inputSenderAlive)
    {
      transport.senderAlive := false;
      transport.inputReceiverAlive := false;
    }
  }

  // ---------------------------------------------------------------------------
  // The render thread

  class RenderLoop {
    const transport: Transport
    /** The WM_PROTOCOLS and WM_DELETE_WINDOW atoms of the display. */
    const wmProtocols: int
    const wmDeleteWindow: int
    /** Glyphs in the font atlas bitmap. */
    const glyphCount: u32
    /** The screen on display. */
    var screen: Screen
    /** Events queued by the display and not yet taken. */
    var xEvents: seq<XEvent>
    var running: bool

    constructor (transport: Transport, wmProtocols: int, wmDeleteWindow: int, atlasBytes: nat)
      ensures this.transport == transport && this.wmProtocols == wmProtocols && this.wmDeleteWindow == wmDeleteWindow
      ensures glyphCount == AtlasGlyphCount(atlasBytes)
      ensures screen == EMPTY_SCREEN && xEvents == [] && running
    {
      this.transport := transport;
      this.wmProtocols := wmProtocols;
      this.wmDeleteWindow := wmDeleteWindow;
      glyphCount := AsU32(AsU32(atlasBytes) * 8) / BITS_PER_GLYPH;
      screen := EMPTY_SCREEN;
      xEvents := [];
      running := true;
    }

    /** Whether a client message is the window manager asking to close the window. */
    predicate IsDeleteRequest(e: XEvent)
      reads this
    {
      e.ClientMessage? && e.messageType == wmProtocols && e.format == FORMAT_32 && e.protocol == wmDeleteWindow
    }

    /** The display receives an event for the window. */
    method Deliver(e: XEvent)
      modifies this`xEvents
      ensures xEvents == old(xEvents) + [e]
    {
      xEvents := xEvents + [e];
    }

    /** Reads 10 bytes at a time until `read` reports nothing: one call per started chunk, plus the one that finds it empty. */
    method DrainSignalPipe() returns (readCalls: nat)
      modifies transport`pipeBytes
      ensures transport.pipeBytes == 0
      ensures readCalls == (old(transport.pipeBytes) + READ_CHUNK - 1) / READ_CHUNK + 1
    {
      readCalls := 0;
      while true
        invariant readCalls + (transport.pipeBytes + READ_CHUNK - 1) / READ_CHUNK == (old(transport.pipeBytes) + READ_CHUNK - 1) / READ_CHUNK
        decreases transport.pipeBytes
      {
        var n := transport.ReadPipe(READ_CHUNK);
        readCalls := readCalls + 1;
        if n <= 0 {
          break;
        }
      }
    }

    /** Receives every queued screen, keeping the newest; reports whether any arrived and whether the sender is gone. */
    method DrainScreens() returns (needExpose: bool, disconnected: bool)
      modifies this`screen, transport`screens
      ensures transport.screens == []
      ensures screen == AfterReceiving(old(screen), old(transport.screens))
      ensures needExpose == (old(transport.screens) != [])
      ensures disconnected == !transport.senderAlive
    {
      needExpose := false;
      while true
        invariant !needExpose ==> transport.screens == old(transport.screens) && screen == old(screen)
        invariant needExpose ==> old(transport.screens) != []
        invariant AfterReceiving(screen, transport.screens) == AfterReceiving(old(screen), old(transport.screens))
        decreases |transport.screens|
      {
        var r := transport.TryRecv();
        match r
        case Empty =>
          disconnected := false;
          break;
        case Disconnected =>
          disconnected := true;
          break;
        case Received(newScreen) =>
          screen := newScreen;
          needExpose := true;
      }
    }

    /** Ends the loop: the receiving end of the screen channel and the sending end of the input channel are dropped. */
    method Exit()
      modifies this`running, transport`receiverAlive, transport`inputSenderAlive
      ensures !running && !transport.receiverAlive && !transport.inputSenderAlive
    {
      running := false;
      transport.receiverAlive := false;
      transport.inputSenderAlive := false;
    }

    /**
     * One turn of the event loop. With no display event queued it handles the
     * signal, or waits when there is none. Otherwise it takes one event: a delete
     * request ends the loop, Expose draws the screen, anything else is ignored.
     * No path sends an input event.
     */
    method Step() returns (outcome: Outcome)
      requires running
      modifies this, transport
      ensures transport.inputEvents == old(transport.inputEvents) && transport.senderAlive == old(transport.senderAlive)
      ensures transport.inputReceiverAlive == old(transport.inputReceiverAlive)
      ensures old(xEvents) == [] && old(transport.pipeBytes) == 0 ==>
                outcome == Blocked && unchanged(this) && unchanged(transport)
      ensures old(xEvents) == [] && old(transport.pipeBytes) > 0 ==>
                && transport.pipeBytes == 0 && transport.screens == []
                && screen == AfterReceiving(old(screen), old(transport.screens))
                && if !transport.senderAlive then
                     outcome == Quit && !running && !transport.receiverAlive && !transport.inputSenderAlive && xEvents == []
                   else
                     && outcome == Woke(old(transport.screens) != []) && running
                     && transport.receiverAlive == old(transport.receiverAlive)
                     && transport.inputSenderAlive == old(transport.inputSenderAlive)
                     && xEvents == if old(transport.screens) != [] then [Expose] else []
      ensures old(xEvents) != [] ==>
                && xEvents == old(xEvents)[1..] && screen == old(screen)
                && transport.screens == old(transport.screens) && transport.pipeBytes == old(transport.pipeBytes)
                && if IsDeleteRequest(old(xEvents)[0]) then
                     outcome == Quit && !running && !transport.receiverAlive && !transport.inputSenderAlive
                   else
                     && running && transport.receiverAlive == old(transport.receiverAlive)
                     && transport.inputSenderAlive == old(transport.inputSenderAlive)
                     && outcome.Dispatched?
                     && (old(xEvents)[0].Expose? ==>
                           && |outcome.draws| == |screen.glyphs|
                           && forall k :: 0 <= k < |outcome.draws| ==> outcome.draws[k] == DrawAt(screen, k))
                     && (!old(xEvents)[0].Expose? ==> outcome.draws == [])
    {
      if xEvents == [] {
        if transport.pipeBytes == 0 {
          return Blocked;
        }
        var _ := DrainSignalPipe();
        var needExpose, disconnected := DrainScreens();
        if disconnected {
          Exit();
          return Quit;
        }
        if needExpose {
          xEvents := xEvents + [Expose];
        }
        return Woke(needExpose);
      }
      var event := xEvents[0];
      xEvents := xEvents[1..];
      if IsDeleteRequest(event) {
        Exit();
        return Quit;
      }
      match event
      case Expose =>
        var draws := ExposeWalk(screen);
        return Dispatched(draws);
      case _ =>
        return Dispatched([]);
    }
  }

  // ---------------------------------------------------------------------------
  // End-to-end scenarios

  /** Two screens, one wake-up: the pipe is emptied, the newer screen is kept, and the Expose that follows draws it. */
  method DrainThenExposeScenario(a: Screen, b: Screen)
  {
    var ui := new GridUi();
    var render := new RenderLoop(ui.transport, 1, 2, 15000);
    var ok := ui.SendScreen(a);
    ok := ui.SendScreen(b);
    assert ui.transport.pipeBytes == 2;
    var outcome := render.Step();
    LastWriteWins(EMPTY_SCREEN, [a, b]);
    assert outcome == Woke(true) && render.screen == b && render.xEvents == [Expose];
    outcome := render.Step();
    assert outcome.Dispatched? && |outcome.draws| == |b.glyphs|;
    outcome := render.Step();
    assert outcome == Blocked;
  }

  /** After the handle is dropped the loop ends only once a signal byte is still pending. */
  method DisconnectScenario(a: Screen)
  {
    var ui := new GridUi();
    var render := new RenderLoop(ui.transport, 1, 2, 15000);
    var ok := ui.SendScreen(a);
    ui.Drop();
    var outcome := render.Step();
    assert outcome == Quit && !render.running && !ui.transport.receiverAlive && !ui.transport.inputReceiverAlive;
  }

  /** Dropping the handle with no signal pending leaves the loop waiting: nothing wakes it. */
  method SilentDropScenario()
  {
    var ui := new GridUi();
    var render := new RenderLoop(ui.transport, 1, 2, 15000);
    ui.Drop();
    var outcome := render.Step();
    assert outcome == Blocked && render.running;
  }

  /** The window manager's delete request ends the loop; a key press is only logged. */
  method CloseScenario()
  {
    var ui := new GridUi();
    var render := new RenderLoop(ui.transport, 1, 2, 15000);
    render.Deliver(KeyPress(38));
    render.Deliver(ClientMessage(1, 32, 2));
    var outcome := render.Step();
    assert outcome == Dispatched([]) && ui.transport.inputEvents == [];
    outcome := render.Step();
    assert outcome == Quit && ui.transport.inputEvents == [];
  }
}
