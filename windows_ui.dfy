/**
 * The Windows render backend with the Win32 calls taken out. `MainFrame` is
 * the window procedure's object: it owns the render-thread state, drains the
 * screen channel when the private WM_CHECK_SCREENS message arrives, turns
 * native input into InputEvents, and paints the grid. `WindowsGridUi` is the
 * application side: it pushes screens and posts the wake-up message.
 *
 * Both channels are sequences, oldest first: `screenSource` holds the screens
 * sent and not yet received, `inputSink` the events sent and not yet read.
 */
module WindowsUi {
  import opened Wrappers
  import opened Ints
  import opened ScreenModel
  import GlyphCode

  /** The private message that tells the window to look at the screen channel. */
  const WM_CHECK_SCREENS: u32 := 0x0401

  /** Cell height in pixels; a cell is half as wide. */
  const GRID_HEIGHT: u32 := 30

  /** Render-thread state: the screen on display and the last grid size sent as a Size event. */
  datatype MainFrameState = MainFrameState(screen: Screen, announcedGridSize: (i32, i32))

  /** The state a new window starts with; (-1, -1) matches no real grid size. */
  const INITIAL_STATE: MainFrameState := MainFrameState(EMPTY_SCREEN, (-1, -1))

  // ---------------------------------------------------------------------------
  // Pixels and cells

  /**
   * The cell holding pixel `(x, y)`, or the grid size of a `x` by `y` client area:
   * `(x as u32 / (grid_height / 2), y as u32 / grid_height)`, division truncating.
   * The cell found is the one whose pixel rectangle contains the point, after the
   * coordinates are cast to u32.
   */
  function PixelToCell(x: int, y: int, gridHeight: u32): (r: (u32, u32))
    requires gridHeight >= 2
    ensures r.0 * (gridHeight / 2) <= AsU32(x) < (r.0 + 1) * (gridHeight / 2)
    ensures r.1 * gridHeight <= AsU32(y) < (r.1 + 1) * gridHeight
  {
    (DivU32(AsU32(x), gridHeight / 2), DivU32(AsU32(y), gridHeight))
  }

  /** With 30-pixel cells, a click at pixel (20, 40) is in column 1, row 1. */
  lemma ClickExample()
    ensures PixelToCell(20, 40, GRID_HEIGHT) == (1, 1)
  {
  }

  /** With cells at least 2 pixels wide a grid size always fits in i32, so it never looks like (-1, -1). */
  lemma GridSizeFitsI32(width: int, height: int, gridHeight: u32)
    requires gridHeight >= 4
    ensures var (cols, rows) := PixelToCell(width, height, gridHeight);
            AsI32(cols) == cols && AsI32(rows) == rows && (AsI32(cols), AsI32(rows)) != (-1, -1)
  {
    QuotientBelowHalf(AsU32(width), gridHeight / 2);
    QuotientBelowHalf(AsU32(height), gridHeight);
  }

  lemma QuotientBelowHalf(n: nat, d: nat)
    requires d >= 2 && n < U32_LIMIT
    ensures n / d < I32_LIMIT
  {
    var q := n / d;
    assert n == d * q + n % d;
    MulMonotone(q, 2, d);
  }

  // ---------------------------------------------------------------------------
  // Keys

  /** A virtual-key code's glyph code: letter keys give lower-case letters, digit keys digits, the space bar a space. */
  function WindowsKeycodeToCharacter(keycode: u8): (r: Option<u32>)
    ensures r.Some? ==> r.value < 20 || (0x1000 <= r.value < 0x11A0 && r.value % 16 == 0)
  {
    if 'A' as int <= keycode <= 'Z' as int then Some(0x1000 + (keycode - 'A' as int) * 16)
    else if '0' as int <= keycode <= '9' as int then Some(10 + (keycode - '0' as int))
    else if ' ' as int == keycode then Some(0)
    else None
  }

  /** The character a key stands for: its own character, in lower case for letter keys. */
  function KeyChar(keycode: u8): char
  {
    if 'A' as int <= keycode <= 'Z' as int then (keycode + ('a' as int - 'A' as int)) as char else keycode as char
  }

  /** Exactly letter, digit and space keys map; each maps to the glyph code of its character, which decodes back to it. */
  lemma KeycodeMapping(keycode: u8)
    ensures WindowsKeycodeToCharacter(keycode).Some? <==>
              ('A' as int <= keycode <= 'Z' as int) || ('0' as int <= keycode <= '9' as int) || keycode == ' ' as int
    ensures WindowsKeycodeToCharacter(keycode).Some? ==>
              WindowsKeycodeToCharacter(keycode) == GlyphCode.FromChar(KeyChar(keycode)) &&
              GlyphCode.AsChar(WindowsKeycodeToCharacter(keycode).value) == Some(KeyChar(keycode))
  {
    var ch := KeyChar(keycode);
    GlyphCode.FromCharLetters(ch);
    GlyphCode.FromCharSymbols();
    GlyphCode.FromCharDigits(ch);
    if WindowsKeycodeToCharacter(keycode).Some? {
      if keycode == ' ' as int {
        assert GlyphCode.SYMBOLS[0] == ' ';
      }
      GlyphCode.CharRoundTrip(ch);
    }
  }

  // ---------------------------------------------------------------------------
  // The last announced size, in terms of the events sent

  /** The payload of the newest Size event in `log`. */
  function LastSize(log: seq<InputEvent>): Option<(u32, u32)>
  {
    if log == [] then None
    else if log[|log| - 1].Size? then Some((log[|log| - 1].cols, log[|log| - 1].rows))
    else LastSize(log[..|log| - 1])
  }

  /** What `announced_grid_size` must be after the events in `log` have been sent. */
  function AnnouncedFrom(log: seq<InputEvent>): (i32, i32)
  {
    match LastSize(log)
    case None => (-1, -1)
    case Some((cols, rows)) => (AsI32(cols), AsI32(rows))
  }

  lemma LastSizeAppend(log: seq<InputEvent>, e: InputEvent)
    ensures LastSize(log + [e]) == if e.Size? then Some((e.cols, e.rows)) else LastSize(log)
  {
    assert (log + [e])[..|log|] == log;
  }

  // ---------------------------------------------------------------------------
  // Painting

  /** A `text_out` call: one character at a pixel origin, in a cell's colours. */
  datatype TextOut = TextOut(x: int, y: int, ch: char, foreground: u32, background: u32)

  /** A `rect` call: the corners of a rectangle drawn with the null pen and the filler brush. */
  datatype FillRect = FillRect(left: int, top: int, right: int, bottom: int)

  /**
   * Whether the rectangle paints pixel `(px, py)`. The right and bottom edges are
   * excluded, and a rectangle drawn without a pen is one pixel smaller each way.
   */
  predicate Paints(f: FillRect, px: int, py: int)
  {
    f.left <= px < f.right - 1 && f.top <= py < f.bottom - 1
  }

  /** The client area of the window, as `GetClientRect` reports it. */
  datatype ClientRect = ClientRect(right: int, bottom: int)

  /** Everything one WM_PAINT draws, in order. */
  datatype Paint = Paint(texts: seq<TextOut>, fills: seq<FillRect>)

  /**
   * Glyph `i` of a screen: drawn at its row-major cell, in its colours; an undecodable
   * code is drawn as a space. The character drawn is always one the codec supports,
   * and for a decodable code it is the character whose code the glyph holds.
   */
  function TextAt(screen: Screen, i: nat, gridHeight: u32): (r: TextOut)
    requires screen.width > 0 && i < |screen.glyphs|
    ensures GlyphCode.Supported(r.ch)
    ensures GlyphCode.AsChar(screen.glyphs[i].character).Some? ==>
              GlyphCode.FromChar(r.ch) == Some(screen.glyphs[i].character)
  {
    var g := screen.glyphs[i];
    assert GlyphCode.SYMBOLS[0] == ' ';
    assert GlyphCode.AsChar(g.character).Some? ==> GlyphCode.FromChar(GlyphCode.AsChar(g.character).value) == Some(g.character) by {
      if GlyphCode.AsChar(g.character).Some? {
        GlyphCode.CodeRoundTrip(g.character);
      }
    }
    var (col, row) := CellOf(i, screen.width);
    TextOut(col * (gridHeight / 2), row * gridHeight, GlyphCode.AsChar(g.character).GetOr(' '), g.foreground, g.background)
  }

  /** Right edge of the filled grid: `width * grid_width` in u32, so it is the true product exactly when that fits in 32 bits. */
  function MaxFilledX(screen: Screen, gridHeight: u32): (r: u32)
    ensures r == screen.width * (gridHeight / 2) <==> screen.width * (gridHeight / 2) < U32_LIMIT
  {
    AsU32(screen.width * (gridHeight / 2))
  }

  /**
   * Bottom edge of the filled grid: whole rows times `grid_height` in u32, or 0 for a
   * screen without width. It is the true product of the row count and the cell
   * height exactly when that fits in 32 bits.
   */
  function MaxFilledY(screen: Screen, gridHeight: u32): (r: u32)
    ensures screen.width == 0 ==> r == 0
    ensures screen.width > 0 ==>
              var rows := AsU32(|screen.glyphs|) / screen.width;
              (r == rows * gridHeight <==> rows * gridHeight < U32_LIMIT)
  {
    if screen.width > 0 then
      var rows := AsU32(|screen.glyphs|) / screen.width;
      WrapsExactlyWhenOutside(rows * gridHeight);
      AsU32(rows * gridHeight)
    else 0
  }

  /**
   * The two filler rectangles: right of the grid, and below it. Nothing is filled
   * without a client rectangle. With one, the pixels of the client area the fillers
   * paint are exactly those outside columns `0..=MaxFilledX` of rows `0..MaxFilledY`.
   */
  function FillerRects(screen: Screen, gridHeight: u32, clientRect: Option<ClientRect>): (r: seq<FillRect>)
    ensures clientRect.None? ==> r == []
    ensures clientRect.Some? ==>
              && |r| == 2
              && forall px, py :: 0 <= px < clientRect.value.right && 0 <= py < clientRect.value.bottom ==>
                   ((Paints(r[0], px, py) || Paints(r[1], px, py)) <==>
                      !(px <= MaxFilledX(screen, gridHeight) && py < MaxFilledY(screen, gridHeight)))
  {
    match clientRect
    case None => []
    case Some(rc) =>
      var maxX: int := MaxFilledX(screen, gridHeight);
      var maxY: int := MaxFilledY(screen, gridHeight);
      [FillRect(maxX + 1, 0, rc.right + 1, rc.bottom + 1), FillRect(0, maxY, maxX + 2, rc.bottom + 1)]
  }

  /** On a well-formed screen (and extents within u32) every cell lies inside the filled extents. */
  lemma CellsInsideFilledExtents(screen: Screen, gridHeight: u32, i: nat)
    requires WellFormed(screen) && screen.width > 0 && i < |screen.glyphs|
    requires |screen.glyphs| < U32_LIMIT && screen.width * (gridHeight / 2) < U32_LIMIT
    requires (|screen.glyphs| / screen.width) * gridHeight < U32_LIMIT
    ensures TextAt(screen, i, gridHeight).x + gridHeight / 2 <= MaxFilledX(screen, gridHeight)
    ensures TextAt(screen, i, gridHeight).y + gridHeight <= MaxFilledY(screen, gridHeight)
  {
    var w := screen.width;
    var gw := gridHeight / 2;
    var rows := |screen.glyphs| / w;
    var (col, row) := CellOf(i, w);
    assert |screen.glyphs| == w * rows;
    RowBelow(i, w, rows);
    MulMonotone(gw, col + 1, w);
    MulMonotone(gridHeight, row + 1, rows);
  }

  /** An index below `width * rows` is in one of the first `rows` rows. */
  lemma RowBelow(i: nat, width: nat, rows: nat)
    requires width > 0 && i < width * rows
    ensures i / width < rows
  {
    assert i == width * (i / width) + i % width;
    if i / width >= rows {
      MulMonotone(width, rows, i / width);
    }
  }

  /** A partial last row starts at or below the bottom extent, so the lower filler rectangle paints over it. */
  lemma PartialRowUnderFiller(screen: Screen, gridHeight: u32)
    requires screen.width > 0 && |screen.glyphs| % screen.width != 0
    requires |screen.glyphs| < U32_LIMIT && (|screen.glyphs| / screen.width) * gridHeight < U32_LIMIT
    ensures TextAt(screen, |screen.glyphs| - 1, gridHeight).y >= MaxFilledY(screen, gridHeight)
  {
    SameRowAsLast(|screen.glyphs|, screen.width);
    TextRow(screen, |screen.glyphs| - 1, gridHeight);
    MaxFilledYExact(screen, gridHeight);
  }

  lemma TextRow(screen: Screen, i: nat, gridHeight: u32)
    requires screen.width > 0 && i < |screen.glyphs|
    ensures TextAt(screen, i, gridHeight).y == (i / screen.width) * gridHeight
  {
  }

  lemma MaxFilledYExact(screen: Screen, gridHeight: u32)
    requires screen.width > 0
    requires |screen.glyphs| < U32_LIMIT && (|screen.glyphs| / screen.width) * gridHeight < U32_LIMIT
    ensures MaxFilledY(screen, gridHeight) == (|screen.glyphs| / screen.width) * gridHeight
  {
    var n := |screen.glyphs|;
    assert AsU32(n) == n;
    var v := (n / screen.width) * gridHeight;
    assert AsU32(v) == v;
  }

  /** Without a complete last row, the last glyph is in row `n / width`. */
  lemma SameRowAsLast(n: nat, width: nat)
    requires width > 0 && n % width != 0
    ensures (n - 1) / width == n / width
  {
    assert n == width * (n / width) + n % width;
    DivModUnique(n - 1, width, n / width, n % width - 1);
  }

  /**
   * The pixel column at `x == MaxFilledX` is left alone in the grid's rows: the
   * right filler starts one pixel further right, the lower one at the bottom extent,
   * and every glyph cell ends at or before `MaxFilledX`.
   */
  lemma UnpaintedColumn(screen: Screen, gridHeight: u32, rc: ClientRect, py: int)
    requires MaxFilledX(screen, gridHeight) < rc.right && 0 <= py < rc.bottom && py < MaxFilledY(screen, gridHeight)
    ensures var fills := FillerRects(screen, gridHeight, Some(rc));
            !Paints(fills[0], MaxFilledX(screen, gridHeight), py) && !Paints(fills[1], MaxFilledX(screen, gridHeight), py)
  {
  }

  /** A screen without width is drawn as nothing and has no filled extent: the fillers cover the whole client area. */
  lemma EmptyScreenFills(screen: Screen, gridHeight: u32, rc: ClientRect)
    requires screen.width == 0
    ensures FillerRects(screen, gridHeight, Some(rc)) == [FillRect(1, 0, rc.right + 1, rc.bottom + 1), FillRect(0, 0, 2, rc.bottom + 1)]
  {
  }

  /** Glyph `r * width + c` is drawn at column `c`, row `r`. */
  lemma TextAtRowMajor(screen: Screen, r: nat, c: nat, gridHeight: u32)
    requires c < screen.width && r * screen.width + c < |screen.glyphs|
    ensures var g := screen.glyphs[r * screen.width + c];
            TextAt(screen, r * screen.width + c, gridHeight)
            == TextOut(c * (gridHeight / 2), r * gridHeight, GlyphCode.AsChar(g.character).GetOr(' '), g.foreground, g.background)
  {
    CellOfRowMajor(r, c, screen.width);
  }

  /**
   * The `text_out` loop of WM_PAINT: rows of `width` glyphs (the last one may be
   * shorter), each glyph at its row-major cell; nothing for a screen without width.
   */
  method PaintGlyphs(screen: Screen, gridHeight: u32) returns (texts: seq<TextOut>)
    ensures |texts| == if screen.width > 0 then |screen.glyphs| else 0
    ensures forall i :: 0 <= i < |texts| ==> texts[i] == TextAt(screen, i, gridHeight)
  {
    var gridWidth := gridHeight / 2;
    texts := [];
    if screen.width > 0 {
      var w: nat := screen.width;
      var rowIdx: nat := 0;
      var start: nat := 0;
      // one pass per chunk of `width` glyphs; the last chunk may be shorter
      while start < |screen.glyphs|
        invariant start == rowIdx * w
        invariant |texts| == Min(start, |screen.glyphs|)
        invariant forall i :: 0 <= i < |texts| ==> texts[i] == TextAt(screen, i, gridHeight)
        decreases |screen.glyphs| - start
      {
        var row := screen.glyphs[start..Min(start + w, |screen.glyphs|)];
        for colIdx := 0 to |row|
          invariant |texts| == start + colIdx
          invariant forall i :: 0 <= i < |texts| ==> texts[i] == TextAt(screen, i, gridHeight)
        {
          var cell := row[colIdx];
          var ch := GlyphCode.AsChar(cell.character).GetOr(' ');
          TextAtRowMajor(screen, rowIdx, colIdx, gridHeight);
          texts := texts + [TextOut(colIdx * gridWidth, rowIdx * gridHeight, ch, cell.foreground, cell.background)];
        }
        rowIdx := rowIdx + 1;
        start := start + w;
      }
    }
  }

  // ---------------------------------------------------------------------------
  // The window

  class MainFrame {
    const gridHeight: u32 := GRID_HEIGHT
    var state: MainFrameState
    /** The screen channel: sent, not yet received. */
    var screenSource: seq<Screen>
    /** The input channel: sent, not yet read by the application. */
    var inputSink: seq<InputEvent>
    /** Messages posted to the window and not yet dispatched. */
    var posted: seq<u32>
    /** How many times the window asked to be repainted. */
    var invalidations: nat
    /** Whether the quit message has been posted to the thread. */
    var quitPosted: bool

    /** Every event ever sent, and how many of them the application has read. */
    ghost var inputLog: seq<InputEvent>
    ghost var delivered: nat

    ghost predicate Valid()
      reads this
    {
      && delivered <= |inputLog|
      && inputSink == inputLog[delivered..]
      && state.announcedGridSize == AnnouncedFrom(inputLog)
    }

    constructor ()
      ensures Valid()
      ensures state == INITIAL_STATE && inputLog == []
      ensures screenSource == [] && inputSink == [] && posted == [] && invalidations == 0 && !quitPosted
    {
      state := INITIAL_STATE;
      screenSource := [];
      inputSink := [];
      posted := [];
      invalidations := 0;
      quitPosted := false;
      inputLog := [];
      delivered := 0;
    }

    /** Sends one event on the input channel. */
    method Emit(e: InputEvent)
      requires delivered <= |inputLog| && inputSink == inputLog[delivered..]
      modifies this`inputSink, this`inputLog
      ensures delivered <= |inputLog| && inputSink == inputLog[delivered..]
      ensures inputSink == old(inputSink) + [e] && inputLog == old(inputLog) + [e]
      ensures LastSize(inputLog) == if e.Size? then Some((e.cols, e.rows)) else LastSize(old(inputLog))
    {
      LastSizeAppend(inputLog, e);
      inputLog := inputLog + [e];
      inputSink := inputSink + [e];
    }

    /** WM_SIZE: sends Size only when the grid size differs from the one last sent. */
    method OnSize(width: int, height: int)
      requires Valid()
      modifies this
      ensures Valid()
      ensures var (cols, rows) := PixelToCell(width, height, gridHeight);
              var size := (AsI32(cols), AsI32(rows));
              if size != old(state.announcedGridSize) then
                && state == old(state).(announcedGridSize := size) && inputSink == old(inputSink) + [Size(cols, rows)]
                && inputLog == old(inputLog) + [Size(cols, rows)]
              else
                state == old(state) && inputSink == old(inputSink) && inputLog == old(inputLog)
      ensures delivered == old(delivered)
      ensures screenSource == old(screenSource) && posted == old(posted)
      ensures invalidations == old(invalidations) && quitPosted == old(quitPosted)
    {
      var gridWidth := gridHeight / 2;
      var cols := AsU32(width) / gridWidth;
      var rows := AsU32(height) / gridHeight;
      var size := (AsI32(cols), AsI32(rows));
      if size != state.announcedGridSize {
        state := state.(announcedGridSize := size);
        Emit(Size(cols, rows));
      }
    }

    /** WM_DESTROY: posts the quit message and sends Close. */
    method OnDestroy()
      requires Valid()
      modifies this
      ensures Valid()
      ensures inputSink == old(inputSink) + [Close] && quitPosted
      ensures state == old(state) && screenSource == old(screenSource) && posted == old(posted)
      ensures invalidations == old(invalidations)
    {
      quitPosted := true;
      Emit(Close);
    }

    /** WM_LBUTTONDOWN: sends MouseDown with the cell under the pointer. */
    method OnLeftButtonDown(x: int, y: int, flags: u32)
      requires Valid()
      modifies this
      ensures Valid()
      ensures inputSink == old(inputSink) + [MouseDown(PixelToCell(x, y, gridHeight).0, PixelToCell(x, y, gridHeight).1)]
      ensures state == old(state) && screenSource == old(screenSource) && posted == old(posted)
      ensures invalidations == old(invalidations) && quitPosted == old(quitPosted)
    {
      var gridWidth := gridHeight / 2;
      var col := AsU32(x) / gridWidth;
      var row := AsU32(y) / gridHeight;
      Emit(MouseDown(col, row));
    }

    /** WM_LBUTTONUP: sends MouseUp with the cell under the pointer. */
    method OnLeftButtonUp(x: int, y: int, flags: u32)
      requires Valid()
      modifies this
      ensures Valid()
      ensures inputSink == old(inputSink) + [MouseUp(PixelToCell(x, y, gridHeight).0, PixelToCell(x, y, gridHeight).1)]
      ensures state == old(state) && screenSource == old(screenSource) && posted == old(posted)
      ensures invalidations == old(invalidations) && quitPosted == old(quitPosted)
    {
      var gridWidth := gridHeight / 2;
      var col := AsU32(x) / gridWidth;
      var row := AsU32(y) / gridHeight;
      Emit(MouseUp(col, row));
    }

    /** WM_KEYDOWN: sends KeyDown for a mappable key, nothing for any other; handled either way. */
    method OnKeyDown(keycode: u8, flags: u32) returns (handled: bool)
      requires Valid()
      modifies this
      ensures Valid() && handled
      ensures inputSink == old(inputSink) + match WindowsKeycodeToCharacter(keycode)
                                             case Some(code) => [KeyDown(code)]
                                             case None => []
      ensures state == old(state) && screenSource == old(screenSource) && posted == old(posted)
      ensures invalidations == old(invalidations) && quitPosted == old(quitPosted)
    {
      var character := WindowsKeycodeToCharacter(keycode);
      if character.Some? {
        Emit(KeyDown(character.value));
      }
      return true;
    }

    /** WM_KEYUP: sends KeyUp for a mappable key, nothing for any other; handled either way. */
    method OnKeyUp(keycode: u8, flags: u32) returns (handled: bool)
      requires Valid()
      modifies this
      ensures Valid() && handled
      ensures inputSink == old(inputSink) + match WindowsKeycodeToCharacter(keycode)
                                             case Some(code) => [KeyUp(code)]
                                             case None => []
      ensures state == old(state) && screenSource == old(screenSource) && posted == old(posted)
      ensures invalidations == old(invalidations) && quitPosted == old(quitPosted)
    {
      var character := WindowsKeycodeToCharacter(keycode);
      if character.Some? {
        Emit(KeyUp(character.value));
      }
      return true;
    }

    /** Drains the screen channel, keeps the newest screen and asks for a repaint; nothing changes if it was empty. */
    method CheckForNewScreen()
      requires Valid()
      modifies this
      ensures Valid()
      ensures screenSource == []
      ensures state == old(state).(screen := AfterReceiving(old(state.screen), old(screenSource)))
      ensures state.screen == if old(screenSource) == [] then old(state.screen) else old(screenSource)[|old(screenSource)| - 1]
      ensures invalidations == old(invalidations) + if old(screenSource) == [] then 0 else 1
      ensures inputSink == old(inputSink) && posted == old(posted) && quitPosted == old(quitPosted)
    {
      var newScreen: Option<Screen> := None;
      while screenSource != []
        invariant newScreen.None? ==> screenSource == old(screenSource)
        invariant newScreen.Some? ==> old(screenSource) != []
        invariant AfterReceiving(if newScreen.Some? then newScreen.value else state.screen, screenSource)
                  == AfterReceiving(old(state.screen), old(screenSource))
        invariant state == old(state) && invalidations == old(invalidations)
        invariant inputSink == old(inputSink) && posted == old(posted) && quitPosted == old(quitPosted)
        invariant inputLog == old(inputLog) && delivered == old(delivered)
        decreases |screenSource|
      {
        newScreen := Some(screenSource[0]);
        screenSource := screenSource[1..];
      }
      if newScreen.Some? {
        state := state.(screen := newScreen.value);
        invalidations := invalidations + 1;
      }
      LastWriteWins(old(state.screen), old(screenSource));
    }

    /** The window procedure's fallback: WM_CHECK_SCREENS is handled by checking for screens, every other message is not. */
    method OnMessage(msg: u32) returns (result: Option<int>)
      requires Valid()
      modifies this
      ensures Valid()
      ensures result == if msg == WM_CHECK_SCREENS then Some(0) else None
      ensures if msg == WM_CHECK_SCREENS then
                screenSource == [] && state == old(state).(screen := AfterReceiving(old(state.screen), old(screenSource)))
              else
                screenSource == old(screenSource) && state == old(state)
      ensures invalidations == old(invalidations) + if msg == WM_CHECK_SCREENS && old(screenSource) != [] then 1 else 0
      ensures inputSink == old(inputSink) && posted == old(posted) && quitPosted == old(quitPosted)
    {
      if msg == WM_CHECK_SCREENS {
        CheckForNewScreen();
        return Some(0);
      }
      return None;
    }

    /** One turn of the message loop: dispatches the oldest posted message, if any. */
    method DispatchPosted() returns (dispatched: bool)
      requires Valid()
      modifies this
      ensures Valid()
      ensures dispatched == (old(posted) != [])
      ensures posted == if dispatched then old(posted)[1..] else old(posted)
      ensures if dispatched && old(posted)[0] == WM_CHECK_SCREENS then
                screenSource == [] && state == old(state).(screen := AfterReceiving(old(state.screen), old(screenSource)))
              else
                screenSource == old(screenSource) && state == old(state)
      ensures invalidations == old(invalidations) +
                if dispatched && old(posted)[0] == WM_CHECK_SCREENS && old(screenSource) != [] then 1 else 0
      ensures inputSink == old(inputSink) && quitPosted == old(quitPosted)
    {
      if posted == [] {
        return false;
      }
      var msg := posted[0];
      posted := posted[1..];
      var _ := OnMessage(msg);
      return true;
    }

    /** WM_PAINT: each glyph at its cell origin, row-major, then the two filler rectangles around the grid. */
    method OnPaint(clientRect: Option<ClientRect>) returns (p: Paint)
      ensures |p.texts| == if state.screen.width > 0 then |state.screen.glyphs| else 0
      ensures forall i :: 0 <= i < |p.texts| ==> p.texts[i] == TextAt(state.screen, i, gridHeight)
      ensures p.fills == FillerRects(state.screen, gridHeight, clientRect)
    {
      var screen := state.screen;
      var gridWidth := gridHeight / 2;
      var fills: seq<FillRect> := [];
      if clientRect.Some? {
        var maxFilledX: int := AsU32(screen.width * gridWidth);
        var maxFilledY: int := if screen.width > 0 then AsU32((AsU32(|screen.glyphs|) / screen.width) * gridHeight) else 0;
        var rc := clientRect.value;
        fills := [FillRect(maxFilledX + 1, 0, rc.right + 1, rc.bottom + 1), FillRect(0, maxFilledY, maxFilledX + 2, rc.bottom + 1)];
      }
      var texts := PaintGlyphs(screen, gridHeight);
      return Paint(texts, fills);
    }
  }

  /** The application's handle: the sending end of the screen channel and the receiving end of the input channel. */
  class WindowsGridUi {
    const window: MainFrame

    /**
     * Creates the window, shows it and paints it before handing it over. Showing
     * the window delivers WM_SIZE for its first client area, `clientWidth` by
     * `clientHeight` pixels, so the handle comes back with that grid size
     * announced and its Size event waiting in the input channel.
     */
    constructor (clientWidth: int, clientHeight: int)
      ensures fresh(window) && window.Valid()
      ensures var (cols, rows) := PixelToCell(clientWidth, clientHeight, GRID_HEIGHT);
              && window.state == MainFrameState(EMPTY_SCREEN, (cols, rows))
              && window.inputLog == [Size(cols, rows)] && window.inputSink == [Size(cols, rows)]
      ensures window.screenSource == [] && window.posted == []
      ensures window.invalidations == 0 && !window.quitPosted
    {
      var win := new MainFrame();
      GridSizeFitsI32(clientWidth, clientHeight, win.gridHeight);
      win.OnSize(clientWidth, clientHeight);
      var _ := win.OnPaint(Some(ClientRect(clientWidth, clientHeight)));
      window := win;
    }

    /** Queues the screen and posts WM_CHECK_SCREENS; nothing the window shows changes until that message is handled. */
    method SendScreen(screen: Screen)
      requires window.Valid()
      modifies window
      ensures window.Valid()
      ensures window.screenSource == old(window.screenSource) + [screen]
      ensures window.posted == old(window.posted) + [WM_CHECK_SCREENS]
      ensures window.state == old(window.state) && window.inputSink == old(window.inputSink)
      ensures window.invalidations == old(window.invalidations) && window.quitPosted == old(window.quitPosted)
    {
      window.screenSource := window.screenSource + [screen];
      window.posted := window.posted + [WM_CHECK_SCREENS];
    }

    /** Takes the oldest unread input event; None where the source would block waiting for one. */
    method GetInputEvent() returns (e: Option<InputEvent>)
      requires window.Valid()
      modifies window
      ensures window.Valid()
      ensures if old(window.inputSink) == [] then e == None && window.inputSink == []
              else e == Some(old(window.inputSink)[0]) && window.inputSink == old(window.inputSink)[1..]
      ensures window.state == old(window.state) && window.screenSource == old(window.screenSource)
      ensures window.posted == old(window.posted)
      ensures window.invalidations == old(window.invalidations) && window.quitPosted == old(window.quitPosted)
    {
      if window.inputSink == [] {
        return None;
      }
      e := Some(window.inputSink[0]);
      window.inputSink := window.inputSink[1..];
      window.delivered := window.delivered + 1;
    }
  }

  // ---------------------------------------------------------------------------
  // End-to-end scenarios

  /** Three screens sent before the window wakes up: one wake-up leaves only the newest on display. */
  method DrainToLatestScenario(a: Screen, b: Screen, c: Screen)
  {
    var ui := new WindowsGridUi(640, 480);
    ui.SendScreen(a);
    ui.SendScreen(b);
    ui.SendScreen(c);
    var dispatched := ui.window.DispatchPosted();
    LastWriteWins(EMPTY_SCREEN, [a, b, c]);
    assert ui.window.state.screen == c && ui.window.invalidations == 1;
    assert ui.window.posted == [WM_CHECK_SCREENS, WM_CHECK_SCREENS];
  }

  /** The first resize is always announced; the same size again is not. */
  method ResizeScenario(width: int, height: int)
  {
    var frame := new MainFrame();
    GridSizeFitsI32(width, height, frame.gridHeight);
    frame.OnSize(width, height);
    var (cols, rows) := PixelToCell(width, height, frame.gridHeight);
    assert frame.inputSink == [Size(cols, rows)];
    frame.OnSize(width, height);
    assert frame.inputSink == [Size(cols, rows)];
  }

  /**
   * The first event the application reads is the Size of the window it was
   * shown at; with 30-pixel cells, a click at (20, 40) then comes as MouseDown(1, 1).
   */
  method ClickScenario()
  {
    assert PixelToCell(300, 600, GRID_HEIGHT) == (20, 20);
    ClickExample();
    var ui := new WindowsGridUi(300, 600);
    assert ui.window.inputSink == [Size(20, 20)];
    ui.window.OnLeftButtonDown(20, 40, 0);
    var e := ui.GetInputEvent();
    assert e == Some(Size(20, 20));
    e := ui.GetInputEvent();
    assert e == Some(MouseDown(1, 1));
  }

  /** A screen three wide, then an empty one: the empty screen is accepted and the next paint fills the whole window. */
  method EmptyScreenScenario(first: seq<Glyph>, rc: ClientRect)
  {
    var ui := new WindowsGridUi(rc.right, rc.bottom);
    ui.SendScreen(Screen(first, 3));
    ui.SendScreen(EMPTY_SCREEN);
    var _ := ui.window.DispatchPosted();
    LastWriteWins(EMPTY_SCREEN, [Screen(first, 3), EMPTY_SCREEN]);
    var p := ui.window.OnPaint(Some(rc));
    assert p.texts == [];
    assert p.fills == [FillRect(1, 0, rc.right + 1, rc.bottom + 1), FillRect(0, 0, 2, rc.bottom + 1)];
  }
}
