/**
 * Glyph codes to indices into the bitmap font atlas. The atlas starts with
 * piece 0, then 128 "missing character" pieces (indices 1..128), then the ten
 * symbols, then the digits. Every code without its own bitmap is drawn from
 * three pieces, the first of them piece 0.
 */
module GlyphParts {
  import opened Ints
  import GlyphCode

  const MISSING_CHARACTER_PIECES_START: u32 := 1
  const MISSING_CHARACTER_PIECES_COUNT: u32 := 16 * 8
  const SYMBOLS_1: u32 := MISSING_CHARACTER_PIECES_START + MISSING_CHARACTER_PIECES_COUNT
  const DIGITS_START: u32 := SYMBOLS_1 + 10

  /** The placeholder drawn for every code outside 0..19. */
  const MISSING_GLYPH: seq<u32> := [0, 1, 19]

  /** The atlas pieces of one glyph code. The digit 9 (code 19) uses `DIGITS_START + 10`, skipping `+ 9`. */
  function GlyphToParts(glyph: u32): (parts: seq<u32>)
    ensures |parts| == 1 || |parts| == 3
    ensures |parts| == 1 <==> glyph <= 19
    ensures |parts| == 1 ==> SYMBOLS_1 <= parts[0] <= DIGITS_START + 10
  {
    match glyph
    case 0 => [SYMBOLS_1]
    case 1 => [SYMBOLS_1 + 1]
    case 2 => [SYMBOLS_1 + 2]
    case 3 => [SYMBOLS_1 + 3]
    case 4 => [SYMBOLS_1 + 4]
    case 5 => [SYMBOLS_1 + 5]
    case 6 => [SYMBOLS_1 + 6]
    case 7 => [SYMBOLS_1 + 7]
    case 8 => [SYMBOLS_1 + 8]
    case 9 => [SYMBOLS_1 + 9]
    case 10 => [DIGITS_START]
    case 11 => [DIGITS_START + 1]
    case 12 => [DIGITS_START + 2]
    case 13 => [DIGITS_START + 3]
    case 14 => [DIGITS_START + 4]
    case 15 => [DIGITS_START + 5]
    case 16 => [DIGITS_START + 6]
    case 17 => [DIGITS_START + 7]
    case 18 => [DIGITS_START + 8]
    case 19 => [DIGITS_START + 10]
    case _ => MISSING_GLYPH
  }

  lemma ConstantValues()
    ensures SYMBOLS_1 == 129 && DIGITS_START == 139
  {
  }

  /** One piece per symbol and digit code; the digit pieces are consecutive except for the last. */
  lemma SimpleParts(glyph: u32)
    ensures glyph <= 9 ==> GlyphToParts(glyph) == [SYMBOLS_1 + glyph]
    ensures 10 <= glyph <= 18 ==> GlyphToParts(glyph) == [DIGITS_START + (glyph - 10)]
    ensures glyph == 19 ==> GlyphToParts(glyph) == [DIGITS_START + 10]
  {
    if glyph <= 19 {
      assert glyph == 0 || glyph == 1 || glyph == 2 || glyph == 3 || glyph == 4 || glyph == 5 || glyph == 6
          || glyph == 7 || glyph == 8 || glyph == 9 || glyph == 10 || glyph == 11 || glyph == 12 || glyph == 13
          || glyph == 14 || glyph == 15 || glyph == 16 || glyph == 17 || glyph == 18 || glyph == 19;
    }
  }

  /** Every other code, letters included, gets the three-piece placeholder. */
  lemma FallbackParts(glyph: u32)
    requires glyph > 19
    ensures GlyphToParts(glyph) == [0, 1, 19]
  {
  }

  /** Letters have no bitmap of their own in the atlas. */
  lemma LettersUsePlaceholder(ch: char)
    requires ('a' <= ch <= 'z') || ('A' <= ch <= 'Z')
    ensures GlyphCode.FromChar(ch).Some? && GlyphToParts(GlyphCode.FromChar(ch).value) == MISSING_GLYPH
  {
    GlyphCode.FromCharLetters(ch);
  }

  /** A single piece is never one of the missing-character pieces. */
  lemma SinglePartOutsideMissingPieces(glyph: u32)
    requires |GlyphToParts(glyph)| == 1
    ensures !(MISSING_CHARACTER_PIECES_START <= GlyphToParts(glyph)[0] < MISSING_CHARACTER_PIECES_START + MISSING_CHARACTER_PIECES_COUNT)
  {
  }

  /** Distinct symbol and digit codes are drawn from distinct atlas pieces. */
  lemma PartsInjective(a: u32, b: u32)
    requires a <= 19 && b <= 19 && GlyphToParts(a) == GlyphToParts(b)
    ensures a == b
  {
    SimpleParts(a);
    SimpleParts(b);
  }
}
