/**
 * The glyph codec: printable ASCII characters to 32-bit glyph codes and back.
 *
 * Code space: 0..9 are the symbols ` _-.,/\:;@`, 10..19 the digits,
 * 0x1000 + 16n the lower-case letters and 0x3000 + 16n the upper-case ones
 * (the two letter ranges differ in bit 0x2000 only).
 */
module GlyphCode {
  import opened Wrappers
  import opened Ints

  type GlyphCode = u32

  const LOWER_A_CODE: nat := 0x1000
  const AFTER_LOWERS: nat := LOWER_A_CODE + 26 * 16
  const CASE_MASK: nat := 0x2000

  /** `LOWER_A_CODE ^ CASE_MASK` and `AFTER_LOWERS ^ CASE_MASK` (see CaseMaskConstants). */
  const UPPER_A_CODE: nat := 0x3000
  const AFTER_UPPERS: nat := 0x31A0

  /** The upper-case range is the lower-case range with the case bit set. */
  lemma CaseMaskConstants()
    ensures UPPER_A_CODE == Xor(LOWER_A_CODE, CASE_MASK)
    ensures AFTER_UPPERS == Xor(AFTER_LOWERS, CASE_MASK)
  {
    Pow2Of13();
    XorSetsClearBit(LOWER_A_CODE, 13);
    XorSetsClearBit(AFTER_LOWERS, 13);
  }

  lemma Pow2Of13()
    ensures Pow2(13) == 0x2000
  {
    assert Pow2(4) == 16;
    assert Pow2(8) == 256;
    assert Pow2(12) == 0x1000;
  }

  /**
   * The glyph code of a character, or None for a character the grid cannot show.
   * Every code it gives is a symbol or digit code below 20, or a 16-aligned code
   * inside one of the two letter ranges.
   */
  function FromChar(ch: char): (r: Option<GlyphCode>)
    ensures r.Some? ==>
              || r.value < 20
              || (r.value % 16 == 0 && (LOWER_A_CODE <= r.value < AFTER_LOWERS || UPPER_A_CODE <= r.value < AFTER_UPPERS))
  {
    if 'a' <= ch <= 'z' then Some(LOWER_A_CODE + (ch as int - 'a' as int) * 16)
    else if 'A' <= ch <= 'Z' then Some(0x3000 + (ch as int - 'A' as int) * 16)
    else match ch
      case ' ' => Some(0)
      case '_' => Some(1)
      case '-' => Some(2)
      case '.' => Some(3)
      case ',' => Some(4)
      case '/' => Some(5)
      case '\\' => Some(6)
      case ':' => Some(7)
      case ';' => Some(8)
      case '@' => Some(9)
      case '0' => Some(10)
      case '1' => Some(11)
      case '2' => Some(12)
      case '3' => Some(13)
      case '4' => Some(14)
      case '5' => Some(15)
      case '6' => Some(16)
      case '7' => Some(17)
      case '8' => Some(18)
      case '9' => Some(19)
      case _ => None
  }

  /** Rust's `(v as u8) as char`: the low byte of `v` read as a Latin-1 character. */
  function ByteChar(v: nat): char
  {
    (v % 0x100) as char
  }

  /**
   * The character of a glyph code, or None when the code is not decodable.
   * `code & 0x0f` is `code % 16` and `(code & 0x0ff0) >> 4` is `(code % 0x1000) / 16`.
   * Every character it gives is one the codec supports.
   */
  function AsChar(code: GlyphCode): (r: Option<char>)
    ensures r.Some? ==> Supported(r.value)
  {
    if LOWER_A_CODE <= code < AFTER_LOWERS && code % 16 == 0 then
      Some(ByteChar('a' as int + (code % 0x1000) / 16))
    else if UPPER_A_CODE <= code < AFTER_UPPERS && code % 16 == 0 then
      Some(ByteChar('A' as int + (code % 0x1000) / 16))
    else match code
      case 0 => Some(' ')
      case 1 => Some('_')
      case 2 => Some('-')
      case 3 => Some('.')
      case 4 => Some(',')
      case 5 => Some('/')
      case 6 => Some('\\')
      case 7 => Some(':')
      case 8 => Some(';')
      case 9 => Some('@')
      case 10 => Some('0')
      case 11 => Some('1')
      case 12 => Some('2')
      case 13 => Some('3')
      case 14 => Some('4')
      case 15 => Some('5')
      case 16 => Some('6')
      case 17 => Some('7')
      case 18 => Some('8')
      case 19 => Some('9')
      case _ => None
  }

  const SYMBOLS: string := " _-.,/\\:;@"

  /** The characters the codec supports. */
  predicate Supported(ch: char)
  {
    ('a' <= ch <= 'z') || ('A' <= ch <= 'Z') || ('0' <= ch <= '9') || ch in SYMBOLS
  }

  // ---------------------------------------------------------------------------
  // FromChar

  /** Letters land on 16-aligned codes from 0x1000 (lower case) and 0x3000 (upper case). */
  lemma FromCharLetters(ch: char)
    ensures 'a' <= ch <= 'z' ==> FromChar(ch) == Some(0x1000 + 16 * (ch as int - 'a' as int))
    ensures 'A' <= ch <= 'Z' ==> FromChar(ch) == Some(0x3000 + 16 * (ch as int - 'A' as int))
  {
  }

  /** Symbols are codes 0..9 in the order of SYMBOLS. */
  lemma FromCharSymbols()
    ensures forall i :: 0 <= i < |SYMBOLS| ==> FromChar(SYMBOLS[i]) == Some(i)
  {
  }

  /** Digits are codes 10..19 in order. */
  lemma FromCharDigits(ch: char)
    ensures '0' <= ch <= '9' ==> FromChar(ch) == Some(10 + (ch as int - '0' as int))
  {
    if '0' <= ch <= '9' {
      var d := ch as int - '0' as int;
      assert d == 0 || d == 1 || d == 2 || d == 3 || d == 4 || d == 5 || d == 6 || d == 7 || d == 8 || d == 9;
    }
  }

  /** Exactly the supported characters have a code. */
  lemma FromCharDefinedIff(ch: char)
    ensures FromChar(ch).Some? <==> Supported(ch)
  {
    FromCharDigits(ch);
  }

  /** Upper- and lower-case codes of one letter differ exactly in bit 0x2000. */
  lemma CaseBitFlip(n: nat)
    requires n < 26
    ensures FromChar(('A' as int + n) as char).Some? && FromChar(('a' as int + n) as char).Some?
    ensures FromChar(('A' as int + n) as char).value == Xor(FromChar(('a' as int + n) as char).value, CASE_MASK)
    ensures FromChar(('a' as int + n) as char).value == Xor(FromChar(('A' as int + n) as char).value, CASE_MASK)
  {
    Pow2Of13();
    var lower := 0x1000 + 16 * n;
    assert FromChar(('a' as int + n) as char) == Some(lower);
    assert FromChar(('A' as int + n) as char) == Some(lower + 0x2000);
    XorSetsClearBit(lower, 13);
    XorClearsSetBit(lower, 13);
  }

  // ---------------------------------------------------------------------------
  // AsChar

  /** A letter code divided into its offset: `0x1000 + 16n` or `0x3000 + 16n` has letter index `(code % 0x1000) / 16 == n`. */
  lemma LetterIndex(base: nat, n: nat)
    requires base == 0x1000 || base == 0x3000
    requires n < 26
    ensures (base + 16 * n) % 16 == 0
    ensures (base + 16 * n) % 0x1000 == 16 * n
    ensures (16 * n) / 16 == n
  {
  }

  lemma LowerRoundTrip(n: nat)
    requires n < 26
    ensures AsChar(0x1000 + 16 * n) == Some(('a' as int + n) as char)
  {
    LetterIndex(0x1000, n);
    assert ByteChar('a' as int + n) == ('a' as int + n) as char;
  }

  lemma UpperRoundTrip(n: nat)
    requires n < 26
    ensures AsChar(0x3000 + 16 * n) == Some(('A' as int + n) as char)
  {
    var code := 0x3000 + 16 * n;
    LetterIndex(0x3000, n);
    assert !(LOWER_A_CODE <= code < AFTER_LOWERS);
    assert UPPER_A_CODE <= code < AFTER_UPPERS;
    assert ByteChar('A' as int + n) == ('A' as int + n) as char;
  }

  lemma SymbolRoundTrip(ch: char)
    requires ch in SYMBOLS || '0' <= ch <= '9'
    ensures FromChar(ch).Some? && AsChar(FromChar(ch).value) == Some(ch)
  {
    FromCharSymbols();
    FromCharDigits(ch);
    if ch in SYMBOLS {
      var i :| 0 <= i < |SYMBOLS| && SYMBOLS[i] == ch;
      assert i == 0 || i == 1 || i == 2 || i == 3 || i == 4 || i == 5 || i == 6 || i == 7 || i == 8 || i == 9;
    } else {
      var d := ch as int - '0' as int;
      assert d == 0 || d == 1 || d == 2 || d == 3 || d == 4 || d == 5 || d == 6 || d == 7 || d == 8 || d == 9;
    }
  }

  /** Every character with a code decodes back from that code. */
  lemma CharRoundTrip(ch: char)
    requires FromChar(ch).Some?
    ensures AsChar(FromChar(ch).value) == Some(ch)
  {
    if 'a' <= ch <= 'z' {
      LowerRoundTrip(ch as int - 'a' as int);
    } else if 'A' <= ch <= 'Z' {
      UpperRoundTrip(ch as int - 'A' as int);
    } else {
      FromCharDefinedIff(ch);
      SymbolRoundTrip(ch);
    }
  }

  /** A code in a letter range with its low nibble clear is `base + 16n` for a letter index `n`. */
  lemma LetterCode(code: nat, base: nat) returns (n: nat)
    requires base == 0x1000 || base == 0x3000
    requires base <= code < base + 26 * 16 && code % 16 == 0
    ensures n < 26 && code == base + 16 * n && (code % 0x1000) / 16 == n
  {
    n := (code - base) / 16;
    assert code - base == 16 * n;
    LetterIndex(base, n);
  }

  /** Every code that decodes is the code of the character it decodes to. */
  lemma CodeRoundTrip(code: GlyphCode)
    requires AsChar(code).Some?
    ensures FromChar(AsChar(code).value) == Some(code)
  {
    if LOWER_A_CODE <= code < AFTER_LOWERS && code % 16 == 0 {
      var n := LetterCode(code, 0x1000);
      assert AsChar(code).value == ('a' as int + n) as char;
    } else if UPPER_A_CODE <= code < AFTER_UPPERS && code % 16 == 0 {
      var n := LetterCode(code, 0x3000);
      assert AsChar(code).value == ('A' as int + n) as char;
    } else {
      SmallCodeRoundTrip(code);
    }
  }

  lemma SmallCodeRoundTrip(code: GlyphCode)
    requires code < 20
    ensures AsChar(code).Some? && FromChar(AsChar(code).value) == Some(code)
  {
    assert code == 0 || code == 1 || code == 2 || code == 3 || code == 4 || code == 5 || code == 6
        || code == 7 || code == 8 || code == 9 || code == 10 || code == 11 || code == 12 || code == 13
        || code == 14 || code == 15 || code == 16 || code == 17 || code == 18 || code == 19;
  }

  /** No two codes decode to the same character. */
  lemma AsCharInjective(c1: GlyphCode, c2: GlyphCode)
    requires AsChar(c1).Some? && AsChar(c1) == AsChar(c2)
    ensures c1 == c2
  {
    CodeRoundTrip(c1);
    CodeRoundTrip(c2);
  }

  /** The undecodable codes: inside a letter range off the 16-grid, or from 20 up outside both letter ranges. */
  predicate Undecodable(code: GlyphCode)
  {
    || ((0x1000 <= code < 0x11A0 || 0x3000 <= code < 0x31A0) && code % 16 != 0)
    || (code >= 20 && !(0x1000 <= code < 0x11A0) && !(0x3000 <= code < 0x31A0))
  }

  lemma AsCharNoneIff(code: GlyphCode)
    ensures AsChar(code).None? <==> Undecodable(code)
  {
    if code < 20 {
      assert code == 0 || code == 1 || code == 2 || code == 3 || code == 4 || code == 5 || code == 6
          || code == 7 || code == 8 || code == 9 || code == 10 || code == 11 || code == 12 || code == 13
          || code == 14 || code == 15 || code == 16 || code == 17 || code == 18 || code == 19;
    }
  }

  /** The decodable codes are exactly the codes of the supported characters. */
  lemma AsCharImage(code: GlyphCode)
    ensures AsChar(code).Some? <==> exists ch :: Supported(ch) && FromChar(ch) == Some(code)
  {
    if AsChar(code).Some? {
      CodeRoundTrip(code);
      FromCharDefinedIff(AsChar(code).value);
    } else if exists ch :: Supported(ch) && FromChar(ch) == Some(code) {
      var ch :| Supported(ch) && FromChar(ch) == Some(code);
      CharRoundTrip(ch);
    }
  }

  // ---------------------------------------------------------------------------
  // Whole strings

  /** UTF-8 length of one character. */
  function Utf8Width(ch: char): nat
  {
    if ch as int < 0x80 then 1 else if ch as int < 0x800 then 2 else if ch as int < 0x10000 then 3 else 4
  }

  /** UTF-8 length of a string, which is what `str::len` counts. */
  function Utf8Len(s: string): nat
  {
    if s == [] then 0 else Utf8Width(s[0]) + Utf8Len(s[1..])
  }

  /** A string is one byte long exactly when it is a single ASCII character. */
  lemma {:induction false} Utf8LenOne(s: string)
    ensures Utf8Len(s) == 1 <==> |s| == 1 && s[0] as int < 0x80
  {
    if s != [] {
      Utf8LenAtLeast(s[1..]);
      if |s| == 1 {
        assert s[1..] == [];
      }
    }
  }

  lemma {:induction false} Utf8LenAtLeast(s: string)
    ensures Utf8Len(s) >= |s|
  {
    if s != [] {
      Utf8LenAtLeast(s[1..]);
    }
  }

  /** One grapheme: it is encodable when it is one byte long and that character has a code. */
  function EncodeGrapheme(g: string): (r: Option<GlyphCode>)
    ensures r.Some? <==> |g| == 1 && Supported(g[0])
    ensures r.Some? ==> r == FromChar(g[0])
  {
    Utf8LenOne(g);
    if Utf8Len(g) != 1 then None
    else
      FromCharDefinedIff(g[0]);
      FromChar(g[0])
  }

  /** The codes of a sequence of graphemes, failing as a whole on the first grapheme that has none. */
  function EncodeGraphemes(graphemes: seq<string>): Option<seq<GlyphCode>>
  {
    Traverse(graphemes, EncodeGrapheme)
  }

  /** The characters of a sequence of codes, failing as a whole on the first code that has none. */
  function DecodeCodes(codes: seq<GlyphCode>): Option<string>
  {
    Traverse(codes, AsChar)
  }

  /** `to_string`: decodes every code into one accumulated string, returning None at the first undecodable code. */
  method ToString(glyphcodes: seq<GlyphCode>) returns (r: Option<string>)
    ensures r == DecodeCodes(glyphcodes)
  {
    var accum: string := [];
    for i := 0 to |glyphcodes|
      invariant |accum| == i
      invariant forall j :: 0 <= j < i ==> AsChar(glyphcodes[j]) == Some(accum[j])
    {
      var ch := AsChar(glyphcodes[i]);
      if ch.Some? {
        accum := accum + [ch.value];
      } else {
        TraverseSpec(glyphcodes, AsChar);
        return None;
      }
    }
    TraverseOfResults(glyphcodes, AsChar, accum);
    return Some(accum);
  }

  /** `from_str` over the grapheme segmentation of the input: one code per grapheme, or None as a whole. */
  method FromStr(graphemes: seq<string>) returns (r: Option<seq<GlyphCode>>)
    ensures r == EncodeGraphemes(graphemes)
  {
    var accum: seq<GlyphCode> := [];
    for i := 0 to |graphemes|
      invariant |accum| == i
      invariant forall j :: 0 <= j < i ==> EncodeGrapheme(graphemes[j]) == Some(accum[j])
    {
      var grapheme := graphemes[i];
      if Utf8Len(grapheme) != 1 {
        TraverseSpec(graphemes, EncodeGrapheme);
        return None;
      }
      var code := FromChar(grapheme[0]);
      if code.Some? {
        accum := accum + [code.value];
      } else {
        TraverseSpec(graphemes, EncodeGrapheme);
        return None;
      }
    }
    TraverseOfResults(graphemes, EncodeGrapheme, accum);
    return Some(accum);
  }

  /** Decoding fails exactly when some code is undecodable; otherwise one character per code, in order. */
  lemma DecodeCodesSpec(codes: seq<GlyphCode>)
    ensures DecodeCodes(codes).None? <==> exists i :: 0 <= i < |codes| && Undecodable(codes[i])
    ensures DecodeCodes(codes).Some? ==>
              |DecodeCodes(codes).value| == |codes| &&
              forall i :: 0 <= i < |codes| ==> AsChar(codes[i]) == Some(DecodeCodes(codes).value[i])
  {
    TraverseSpec(codes, AsChar);
    forall i | 0 <= i < |codes| { AsCharNoneIff(codes[i]); }
  }

  /** Encoding fails exactly when some grapheme is not a single supported character; otherwise one code per grapheme, in order. */
  lemma EncodeGraphemesSpec(graphemes: seq<string>)
    ensures EncodeGraphemes(graphemes).None? <==>
              exists i :: 0 <= i < |graphemes| && !(|graphemes[i]| == 1 && Supported(graphemes[i][0]))
    ensures EncodeGraphemes(graphemes).Some? ==>
              |EncodeGraphemes(graphemes).value| == |graphemes| &&
              forall i :: 0 <= i < |graphemes| ==> FromChar(graphemes[i][0]) == Some(EncodeGraphemes(graphemes).value[i])
  {
    TraverseSpec(graphemes, EncodeGrapheme);
  }

  function Concat(graphemes: seq<string>): string
  {
    if graphemes == [] then [] else graphemes[0] + Concat(graphemes[1..])
  }

  /** Encoding a grapheme sequence and decoding the codes gives back the text the graphemes spell. */
  lemma {:induction false} StringRoundTrip(graphemes: seq<string>)
    requires EncodeGraphemes(graphemes).Some?
    ensures DecodeCodes(EncodeGraphemes(graphemes).value) == Some(Concat(graphemes))
  {
    if graphemes != [] {
      var g := graphemes[0];
      assert EncodeGrapheme(g).Some?;
      var rest := EncodeGraphemes(graphemes[1..]);
      assert rest.Some?;
      StringRoundTrip(graphemes[1..]);
      CharRoundTrip(g[0]);
      assert g == [g[0]];
      var codes := EncodeGraphemes(graphemes).value;
      assert codes == [FromChar(g[0]).value] + rest.value;
      assert codes[1..] == rest.value;
    }
  }

  /** Every character on its own. */
  function Singletons(s: string): (gs: seq<string>)
    ensures |gs| == |s| && forall i :: 0 <= i < |s| ==> gs[i] == [s[i]]
  {
    if s == [] then [] else [[s[0]]] + Singletons(s[1..])
  }

  lemma {:induction false} ConcatSingletons(s: string)
    ensures Concat(Singletons(s)) == s
  {
    if s != [] {
      ConcatSingletons(s[1..]);
      assert Singletons(s)[1..] == Singletons(s[1..]);
    }
  }

  /**
   * For a string of supported characters, each one its own grapheme, encoding succeeds and
   * decoding gives the string back; one unsupported character makes the whole encoding fail.
   */
  lemma TextRoundTrip(s: string)
    ensures (forall i :: 0 <= i < |s| ==> Supported(s[i])) ==>
              EncodeGraphemes(Singletons(s)).Some? && DecodeCodes(EncodeGraphemes(Singletons(s)).value) == Some(s)
    ensures (exists i :: 0 <= i < |s| && !Supported(s[i])) ==> EncodeGraphemes(Singletons(s)).None?
  {
    EncodeGraphemesSpec(Singletons(s));
    if forall i :: 0 <= i < |s| ==> Supported(s[i]) {
      StringRoundTrip(Singletons(s));
      ConcatSingletons(s);
    }
  }

  /** The unit tests of the codec, encoding half: "abc" and "Abc" give the expected codes. */
  lemma FromStrExamples()
    ensures EncodeGraphemes(["a", "b", "c"]) == Some([0x1000, 0x1010, 0x1020])
    ensures EncodeGraphemes(["A", "b", "c"]) == Some([0x3000, 0x1010, 0x1020])
  {
    TraverseOfResults(["a", "b", "c"], EncodeGrapheme, [0x1000, 0x1010, 0x1020]);
    TraverseOfResults(["A", "b", "c"], EncodeGrapheme, [0x3000, 0x1010, 0x1020]);
  }

  /** The unit tests of the codec, decoding half: the expected codes decode back to "abc" and "Abc". */
  lemma ToStringExamples()
    ensures DecodeCodes([0x1000, 0x1010, 0x1020]) == Some("abc")
    ensures DecodeCodes([0x3000, 0x1010, 0x1020]) == Some("Abc")
  {
    var lower: seq<GlyphCode> := [0x1000, 0x1010, 0x1020];
    var upper: seq<GlyphCode> := [0x3000, 0x1010, 0x1020];
    LowerRoundTrip(0);
    LowerRoundTrip(1);
    LowerRoundTrip(2);
    UpperRoundTrip(0);
    TraverseOfResults(lower, AsChar, "abc");
    TraverseOfResults(upper, AsChar, "Abc");
  }
}
