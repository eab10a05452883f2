/** How single characters are spelled in the debug protocol's strings
    (RFC 8259, section 7). */
module JsonSpelling {
  import opened Text
  import opened JsonCodec

  /** The digit stands for this number, in either case. */
  predicate DigitFor(c: char, n: nat)
    requires n < 16
  {
    c == "0123456789abcdef"[n] || c == "0123456789ABCDEF"[n]
  }

  lemma DigitRead(c: char, n: nat)
    requires n < 16 && DigitFor(c, n)
    ensures HexDigit(c) == Some(n)
  {
    LowerDigit(n);
    UpperDigit(n);
  }

  lemma LowerDigit(n: nat)
    requires n < 16
    ensures "0123456789abcdef"[n] as int == if n < 10 then '0' as int + n else 'a' as int + n - 10
  {}

  lemma UpperDigit(n: nat)
    requires n < 16
    ensures "0123456789ABCDEF"[n] as int == if n < 10 then '0' as int + n else 'A' as int + n - 10
  {}

  lemma OnePiece(p: Piece, rest: string)
    requires ValidPiece(p)
    ensures ParseString("\"" + WrittenPiece(p) + "\"" + rest) == Ok(Parsed([MeaningOf(p)], rest))
  {
    var ps := [p];
    assert ps[1..] == [];
    assert Written(ps) == WrittenPiece(p) + Written([]) == WrittenPiece(p);
    assert Meaning(ps) == [MeaningOf(p)] + Meaning([]) == [MeaningOf(p)];
    assert Quoted(ps) + rest == "\"" + WrittenPiece(p) + "\"" + rest;
    ParseAccepts(ps, rest);
  }

  /** Four digits of either case name the character with that number, wherever they
      stand; the surrogates are refused. */
  lemma DigitsRead(a: nat, b: nat, c: nat, d: nat, digits: string, rest: string)
    requires a < 16 && b < 16 && c < 16 && d < 16 && |digits| == 4
    requires DigitFor(digits[0], a) && DigitFor(digits[1], b) && DigitFor(digits[2], c) && DigitFor(digits[3], d)
    ensures var n := a * 4096 + b * 256 + c * 16 + d;
            ParseString("\"\\u" + digits + "\"" + rest) ==
            if 0xD800 <= n <= 0xDFFF then Err(InvalidUnicodeScalar) else Ok(Parsed([n as char], rest))
  {
    var n := a * 4096 + b * 256 + c * 16 + d;
    ValueOfDigits(a, b, c, d, digits);
    var input := "\"\\u" + digits + "\"" + rest;
    var body := "\\u" + digits + "\"" + rest;
    assert input[1..] == body;
    assert body[2..] == digits + "\"" + rest && body[2..][..4] == digits;
    if IsScalar(n) {
      OnePiece(Unicode(digits), rest);
      assert "\"" + WrittenPiece(Unicode(digits)) + "\"" + rest == input;
    } else {
      assert ParsePiece(body) == Err(InvalidUnicodeScalar);
      BadPiece(body, InvalidUnicodeScalar);
    }
  }

  lemma BadPiece(body: string, e: Error)
    requires body != "" && body[0] != '"' && ParsePiece(body) == Err(e)
    ensures ParseString("\"" + body) == Err(e)
  {
    assert ("\"" + body)[1..] == body;
  }

  lemma ValueOfDigits(a: nat, b: nat, c: nat, d: nat, digits: string)
    requires a < 16 && b < 16 && c < 16 && d < 16 && |digits| == 4
    requires DigitFor(digits[0], a) && DigitFor(digits[1], b) && DigitFor(digits[2], c) && DigitFor(digits[3], d)
    ensures HexValue(digits) == Some(a * 4096 + b * 256 + c * 16 + d)
  {
    DigitRead(digits[0], a);
    DigitRead(digits[1], b);
    DigitRead(digits[2], c);
    DigitRead(digits[3], d);
    HexValueOfFour(digits[0], digits[1], digits[2], digits[3]);
    assert digits == [digits[0], digits[1], digits[2], digits[3]];
  }

  /** The eight short escapes. */
  lemma EscapesRead(k: nat, rest: string)
    requires k < 8
    ensures ParseString("\"\\" + ["\"\\/bfnrt"[k]] + "\"" + rest) ==
            Ok(Parsed([['"', '\\', '/', '\U{0008}', '\U{000C}', '\n', '\r', '\t'][k]], rest))
  {
    var letter := "\"\\/bfnrt"[k];
    OnePiece(Short(letter), rest);
    assert "\"" + WrittenPiece(Short(letter)) + "\"" + rest == "\"\\" + [letter] + "\"" + rest;
  }

  /** Any other character after a backslash, and a bare control character, are refused. */
  lemma OthersRefused(c: char, rest: string)
    ensures c !in "\"\\/bfnrtu" ==> ParseString("\"\\" + [c] + rest) == Err(InvalidEscape(c))
    ensures c <= '\U{001F}' || '\U{007F}' <= c <= '\U{009F}' ==> ParseString("\"" + [c] + rest) == Err(ControlCharacter)
    ensures !(c <= '\U{001F}' || '\U{007F}' <= c <= '\U{009F}' || c == '"' || c == '\\') ==>
              ParseString("\"" + [c] + "\"" + rest) == Ok(Parsed([c], rest))
  {
    var escaped, bare := "\"\\" + [c] + rest, "\"" + [c] + rest;
    assert escaped[1..] == "\\" + [c] + rest && bare[1..] == [c] + rest;
    if !(IsControl(c) || c == '"' || c == '\\') { OnePiece(Raw(c), rest); }
  }

  /** A character is printed as itself unless it is a quotation mark, a backslash or a
      control character; these are printed as two characters where there is such an
      escape, and else as `\u` and four lower-case digits. */
  lemma PrintedExactly(c: char)
    ensures !(c <= '\U{001F}' || '\U{007F}' <= c <= '\U{009F}' || c == '"' || c == '\\') ==> EncodeChar(c) == [c]
    ensures forall k :: 0 <= k < 7 && c == ['"', '\\', '\U{0008}', '\U{000C}', '\n', '\r', '\t'][k] ==>
              EncodeChar(c) == "\\" + ["\"\\bfnrt"[k]]
    ensures (c <= '\U{001F}' || '\U{007F}' <= c <= '\U{009F}') && c !in ['\U{0008}', '\U{000C}', '\n', '\r', '\t'] ==>
              EncodeChar(c) == "\\u00" + ["0123456789abcdef"[c as int / 16], "0123456789abcdef"[c as int % 16]]
  {}
}
