/** The debug protocol's JSON strings and flat string-to-string objects. */
module JsonCodec {
  import opened Text

  datatype Error =
    | Expected(c: char)
    | UnterminatedString
    | UnterminatedEscape
    | InvalidEscape(c: char)
    | ControlCharacter
    | InvalidUnicodeEscape
    | InvalidUnicodeScalar
    | DuplicateField(key: string)
    | TrailingContent

  datatype Result<+T> = Ok(value: T) | Err(error: Error)

  /** A parsed value together with the input that follows it. */
  datatype Parsed<+T> = Parsed(value: T, rest: string)

  // ----- Printing -----

  const HEX := "0123456789abcdef"

  function Hex4(n: nat): (s: string)
    requires n < 0x1_0000
    ensures |s| == 4
  {
    [HEX[n / 4096], HEX[n / 256 % 16], HEX[n / 16 % 16], HEX[n % 16]]
  }

  function EncodeChar(c: char): string {
    if c == '"' then "\\\""
    else if c == '\\' then "\\\\"
    else if c == '\U{08}' then "\\b"
    else if c == '\U{0C}' then "\\f"
    else if c == '\n' then "\\n"
    else if c == '\r' then "\\r"
    else if c == '\t' then "\\t"
    else if IsControl(c) then "\\u" + Hex4(c as int)
    else [c]
  }

  function EncodeChars(s: string): string {
    if s == "" then "" else EncodeChar(s[0]) + EncodeChars(s[1..])
  }

  function Encode(s: string): string {
    "\"" + EncodeChars(s) + "\""
  }

  lemma AppendAssoc(a: string, b: string, c: string)
    ensures a + (b + c) == (a + b) + c
  {}

  lemma {:induction false} EncodeCharsSnoc(s: string, c: char)
    ensures EncodeChars(s + [c]) == EncodeChars(s) + EncodeChar(c)
  {
    if s == "" {
      assert s + [c] == [c] && [c][1..] == "";
      assert EncodeChars([c]) == EncodeChar(c) + EncodeChars("");
    } else {
      assert (s + [c])[1..] == s[1..] + [c];
      EncodeCharsSnoc(s[1..], c);
      AppendAssoc(EncodeChar(s[0]), EncodeChars(s[1..]), EncodeChar(c));
    }
  }

  method JsonString(value: string) returns (encoded: string)
    ensures encoded == Encode(value)
  {
    encoded := "\"";
    for i := 0 to |value|
      invariant encoded == "\"" + EncodeChars(value[..i])
    {
      assert value[..i + 1] == value[..i] + [value[i]];
      EncodeCharsSnoc(value[..i], value[i]);
      AppendAssoc("\"", EncodeChars(value[..i]), EncodeChar(value[i]));
      encoded := encoded + EncodeChar(value[i]);
    }
    assert value[..|value|] == value;
    encoded := encoded + "\"";
  }

  // ----- The reference grammar of a string -----

  /** One written element of a string: a character as itself, a two-character
      escape, or a four-digit escape. */
  datatype Piece = Raw(c: char) | Short(letter: char) | Unicode(d: string)

  function ShortMeaning(letter: char): Option<char> {
    if letter == '"' || letter == '\\' || letter == '/' then Some(letter)
    else if letter == 'b' then Some('\U{08}')
    else if letter == 'f' then Some('\U{0C}')
    else if letter == 'n' then Some('\n')
    else if letter == 'r' then Some('\r')
    else if letter == 't' then Some('\t')
    else None
  }

  function HexDigit(c: char): Option<nat> {
    if '0' <= c <= '9' then Some(c as int - '0' as int)
    else if 'a' <= c <= 'f' then Some(c as int - 'a' as int + 10)
    else if 'A' <= c <= 'F' then Some(c as int - 'A' as int + 10)
    else None
  }

  /** The number written by hexadecimal digits, most significant first. */
  function HexValue(d: string): Option<nat> {
    if d == "" then Some(0)
    else match (HexValue(d[..|d| - 1]), HexDigit(d[|d| - 1])) {
      case (Some(high), Some(low)) => Some(high * 16 + low)
      case _ => None
    }
  }

  predicate IsScalar(n: nat) { n < 0xD800 || 0xE000 <= n < 0x11_0000 }

  lemma {:induction false} HexValueBound(d: string)
    requires |d| <= 4 && HexValue(d).Some?
    ensures |d| == 0 ==> HexValue(d).value == 0
    ensures |d| == 1 ==> HexValue(d).value < 0x10
    ensures |d| == 2 ==> HexValue(d).value < 0x100
    ensures |d| == 3 ==> HexValue(d).value < 0x1000
    ensures |d| == 4 ==> HexValue(d).value < 0x1_0000
  {
    if d != "" { HexValueBound(d[..|d| - 1]); }
  }

  predicate ValidPiece(p: Piece) {
    match p
    case Raw(c) => c != '"' && c != '\\' && !IsControl(c)
    case Short(letter) => ShortMeaning(letter).Some?
    case Unicode(d) => |d| == 4 && HexValue(d).Some? && IsScalar(HexValue(d).value)
  }

  predicate ValidPieces(ps: seq<Piece>) { forall p <- ps :: ValidPiece(p) }

  function WrittenPiece(p: Piece): string {
    match p
    case Raw(c) => [c]
    case Short(letter) => ['\\', letter]
    case Unicode(d) => "\\u" + d
  }

  function ScalarOf(d: string): char
    requires |d| == 4 && HexValue(d).Some? && IsScalar(HexValue(d).value)
  {
    HexValueBound(d);
    HexValue(d).value as char
  }

  function MeaningOf(p: Piece): char
    requires ValidPiece(p)
  {
    match p
    case Raw(c) => c
    case Short(letter) => ShortMeaning(letter).value
    case Unicode(d) => ScalarOf(d)
  }

  function Written(ps: seq<Piece>): string {
    if ps == [] then "" else WrittenPiece(ps[0]) + Written(ps[1..])
  }

  function Meaning(ps: seq<Piece>): string
    requires ValidPieces(ps)
  {
    if ps == [] then "" else [MeaningOf(ps[0])] + Meaning(ps[1..])
  }

  function Quoted(ps: seq<Piece>): string {
    "\"" + Written(ps) + "\""
  }

  // ----- What the cursor computes -----

  /** Four digits and the scalar they name, after `\u`. */
  function UnicodeEscape(input: string): Result<Parsed<char>> {
    if |input| < 4 || HexValue(input[..4]).None? then Err(InvalidUnicodeEscape)
    else if !IsScalar(HexValue(input[..4]).value) then Err(InvalidUnicodeScalar)
    else Ok(Parsed(ScalarOf(input[..4]), input[4..]))
  }

  /** One element of a string body that is not at its end. */
  function ParsePiece(input: string): (r: Result<Parsed<char>>)
    requires input != "" && input[0] != '"'
    ensures r.Ok? ==> |r.value.rest| < |input|
  {
    if input[0] == '\\' then
      if |input| == 1 then Err(UnterminatedEscape)
      else if input[1] == 'u' then UnicodeEscape(input[2..])
      else match ShortMeaning(input[1]) {
        case Some(c) => Ok(Parsed(c, input[2..]))
        case None => Err(InvalidEscape(input[1]))
      }
    else if IsControl(input[0]) then Err(ControlCharacter)
    else Ok(Parsed(input[0], input[1..]))
  }

  function Prepend(s: string, r: Result<Parsed<string>>): Result<Parsed<string>> {
    match r
    case Ok(p) => Ok(Parsed(s + p.value, p.rest))
    case Err(e) => Err(e)
  }

  lemma PrependNothing(r: Result<Parsed<string>>)
    ensures Prepend("", r) == r
  {
    if r.Ok? { assert "" + r.value.value == r.value.value; }
  }

  lemma PrependTwice(s: string, t: string, r: Result<Parsed<string>>)
    ensures Prepend(s, Prepend(t, r)) == Prepend(s + t, r)
  {
    if r.Ok? { assert s + (t + r.value.value) == (s + t) + r.value.value; }
  }

  function ParseBody(input: string): (r: Result<Parsed<string>>)
    ensures r.Ok? ==> |r.value.rest| < |input|
    decreases |input|
  {
    if input == "" then Err(UnterminatedString)
    else if input[0] == '"' then Ok(Parsed("", input[1..]))
    else match ParsePiece(input) {
      case Err(e) => Err(e)
      case Ok(p) => Prepend([p.value], ParseBody(p.rest))
    }
  }

  function ParseString(input: string): (r: Result<Parsed<string>>)
    ensures r.Ok? ==> |r.value.rest| < |input|
  {
    if input != "" && input[0] == '"' then ParseBody(input[1..]) else Err(Expected('"'))
  }

  // ----- The string parser accepts exactly the grammar -----

  lemma ParsePieceOfWritten(p: Piece, t: string)
    requires ValidPiece(p)
    ensures var w := WrittenPiece(p) + t;
            w != "" && w[0] != '"' && ParsePiece(w) == Ok(Parsed(MeaningOf(p), t))
  {
    var w := WrittenPiece(p) + t;
    match p {
      case Raw(c) => assert w[1..] == t;
      case Short(letter) => assert w[2..] == t;
      case Unicode(d) =>
        assert w[2..] == d + t;
        assert (d + t)[..4] == d && (d + t)[4..] == t;
    }
  }

  /** Every spelling of a string is read back as its meaning, leaving the rest. */
  lemma {:induction false} ParseAccepts(ps: seq<Piece>, t: string)
    requires ValidPieces(ps)
    ensures ParseString(Quoted(ps) + t) == Ok(Parsed(Meaning(ps), t))
  {
    var input, body := Quoted(ps) + t, Written(ps) + "\"" + t;
    assert input == "\"" + body && input[1..] == body;
    ParseBodyAccepts(ps, t);
  }

  lemma {:induction false} ParseBodyAccepts(ps: seq<Piece>, t: string)
    requires ValidPieces(ps)
    ensures ParseBody(Written(ps) + "\"" + t) == Ok(Parsed(Meaning(ps), t))
  {
    var input := Written(ps) + "\"" + t;
    if ps == [] {
      assert input == "\"" + t;
      assert input[1..] == t;
    } else {
      var tail := Written(ps[1..]) + "\"" + t;
      assert input == WrittenPiece(ps[0]) + tail;
      ParsePieceOfWritten(ps[0], tail);
      ParseBodyAccepts(ps[1..], t);
    }
  }

  lemma QuotedAppend(ps: seq<Piece>, rest: string)
    ensures "\"" + (Written(ps) + "\"" + rest) == Quoted(ps) + rest
  {}

  /** Whatever is accepted is one spelling of the value returned. */
  lemma ParseSound(input: string) returns (ps: seq<Piece>)
    requires ParseString(input).Ok?
    ensures ValidPieces(ps)
    ensures ParseString(input).value.value == Meaning(ps)
    ensures input == Quoted(ps) + ParseString(input).value.rest
  {
    ps := ParseBodySound(input[1..]);
    assert input == "\"" + input[1..];
    QuotedAppend(ps, ParseBody(input[1..]).value.rest);
  }

  lemma {:induction false} ParseBodySound(input: string) returns (ps: seq<Piece>)
    requires ParseBody(input).Ok?
    ensures ValidPieces(ps)
    ensures ParseBody(input).value.value == Meaning(ps)
    ensures input == Written(ps) + "\"" + ParseBody(input).value.rest
    decreases |input|
  {
    if input[0] == '"' {
      ps := [];
      assert input == "" + "\"" + input[1..];
    } else {
      var parsed := ParsePiece(input).value;
      var p := PieceSound(input);
      var tail := ParseBodySound(parsed.rest);
      ps := [p] + tail;
      PiecesCons(p, tail, ParseBody(parsed.rest).value.rest);
    }
  }

  lemma PiecesCons(p: Piece, tail: seq<Piece>, rest: string)
    requires ValidPiece(p) && ValidPieces(tail)
    ensures ValidPieces([p] + tail)
    ensures Meaning([p] + tail) == [MeaningOf(p)] + Meaning(tail)
    ensures Written([p] + tail) + "\"" + rest == WrittenPiece(p) + (Written(tail) + "\"" + rest)
  {
    var ps := [p] + tail;
    assert ps[0] == p && ps[1..] == tail;
  }

  lemma PieceSound(input: string) returns (p: Piece)
    requires input != "" && input[0] != '"' && ParsePiece(input).Ok?
    ensures ValidPiece(p) && MeaningOf(p) == ParsePiece(input).value.value
    ensures input == WrittenPiece(p) + ParsePiece(input).value.rest
  {
    if input[0] != '\\' {
      p := Raw(input[0]);
    } else if input[1] == 'u' {
      p := Unicode(input[2..][..4]);
      assert input == "\\u" + input[2..];
    } else {
      p := Short(input[1]);
    }
  }

  // ----- Round trip of strings -----

  function PieceFor(c: char): (p: Piece) {
    if c == '"' || c == '\\' then Short(c)
    else if c == '\U{08}' then Short('b')
    else if c == '\U{0C}' then Short('f')
    else if c == '\n' then Short('n')
    else if c == '\r' then Short('r')
    else if c == '\t' then Short('t')
    else if IsControl(c) then Unicode(Hex4(c as int))
    else Raw(c)
  }

  function Pieces(s: string): (ps: seq<Piece>) {
    if s == "" then [] else [PieceFor(s[0])] + Pieces(s[1..])
  }

  lemma HexValueOfFour(a: char, b: char, c: char, d: char)
    requires HexDigit(a).Some? && HexDigit(b).Some? && HexDigit(c).Some? && HexDigit(d).Some?
    ensures HexValue([a, b, c, d]) ==
            Some(((HexDigit(a).value * 16 + HexDigit(b).value) * 16 + HexDigit(c).value) * 16 + HexDigit(d).value)
  {
    assert [] + [a] == [a] && [a] + [b] == [a, b] && [a, b] + [c] == [a, b, c] && [a, b, c] + [d] == [a, b, c, d];
    HexValueSnoc("", a);
    HexValueSnoc([a], b);
    HexValueSnoc([a, b], c);
    HexValueSnoc([a, b, c], d);
  }

  lemma HexValueOfHex4(n: nat)
    requires n < 0x100
    ensures HexValue(Hex4(n)) == Some(n)
  {
    var zero, high, low := HEX[0], HEX[n / 16 % 16], HEX[n % 16];
    assert Hex4(n) == [zero, zero, high, low];
    HexDigitOf(0);
    HexDigitOf(n / 16 % 16);
    HexDigitOf(n % 16);
    HexValueOfFour(zero, zero, high, low);
  }

  lemma HexDigitOf(k: nat)
    requires k < 16
    ensures HexDigit(HEX[k]) == Some(k)
  {
    assert HEX[0] == '0' && HEX[1] == '1' && HEX[2] == '2' && HEX[3] == '3';
    assert HEX[4] == '4' && HEX[5] == '5' && HEX[6] == '6' && HEX[7] == '7';
    assert HEX[8] == '8' && HEX[9] == '9' && HEX[10] == 'a' && HEX[11] == 'b';
    assert HEX[12] == 'c' && HEX[13] == 'd' && HEX[14] == 'e' && HEX[15] == 'f';
  }

  lemma HexValueSnoc(d: string, c: char)
    requires HexValue(d).Some? && HexDigit(c).Some?
    ensures HexValue(d + [c]) == Some(HexValue(d).value * 16 + HexDigit(c).value)
  {
    assert (d + [c])[..|d|] == d;
  }

  lemma PieceForCorrect(c: char)
    ensures ValidPiece(PieceFor(c)) && MeaningOf(PieceFor(c)) == c
    ensures WrittenPiece(PieceFor(c)) == EncodeChar(c)
  {
    if IsControl(c) { HexValueOfHex4(c as int); }
  }

  lemma PiecesCorrect(s: string)
    ensures ValidPieces(Pieces(s)) && Meaning(Pieces(s)) == s && Quoted(Pieces(s)) == Encode(s)
  {
    WrittenPieces(s);
  }

  lemma {:induction false} WrittenPieces(s: string)
    ensures ValidPieces(Pieces(s)) && Meaning(Pieces(s)) == s && Written(Pieces(s)) == EncodeChars(s)
  {
    if s != "" {
      PieceForCorrect(s[0]);
      WrittenPieces(s[1..]);
      assert Pieces(s)[1..] == Pieces(s[1..]);
      assert s == [s[0]] + s[1..];
    }
  }

  /** Parsing an encoded string followed by anything returns the string and
      leaves exactly what followed. */
  lemma RoundTrip(s: string, t: string)
    ensures ParseString(Encode(s) + t) == Ok(Parsed(s, t))
  {
    PiecesCorrect(s);
    ParseAccepts(Pieces(s), t);
  }

  /** The encoding is injective and prefix-free. */
  lemma EncodingPrefixFree(a: string, t: string, b: string, u: string)
    requires Encode(a) + t == Encode(b) + u
    ensures a == b && t == u
  {
    RoundTrip(a, t);
    RoundTrip(b, u);
  }

  /** An encoded string holds no control character, hence no line break. */
  lemma EncodingHasNoControl(s: string)
    ensures NoControl(Encode(s))
  {
    EncodeCharsHasNoControl(s);
  }

  predicate NoControl(s: string) { forall i :: 0 <= i < |s| ==> !IsControl(s[i]) }

  lemma {:induction false} EncodeCharsHasNoControl(s: string)
    ensures NoControl(EncodeChars(s))
  {
    if s != "" {
      EncodeCharHasNoControl(s[0]);
      EncodeCharsHasNoControl(s[1..]);
    }
  }

  lemma EncodeCharHasNoControl(c: char)
    ensures NoControl(EncodeChar(c))
  {
    if IsControl(c) { Hex4HasNoControl(c as int); }
  }

  lemma Hex4HasNoControl(n: nat)
    requires n < 0x1_0000
    ensures NoControl("\\u" + Hex4(n))
  {
    assert NoControl(HEX);
  }

  // ----- Objects -----

  function SkipWhitespace(input: string): (rest: string)
    ensures |rest| <= |input|
  {
    if input != "" && IsWhitespace(input[0]) then SkipWhitespace(input[1..]) else input
  }

  predicate StartsWith(input: string, c: char) { input != "" && input[0] == c }

  /** Reads one `key : value` pair. */
  function ParseField(input: string): (r: Result<Parsed<(string, string)>>)
    ensures r.Ok? ==> |r.value.rest| < |input|
  {
    match ParseString(input)
    case Err(e) => Err(e)
    case Ok(key) =>
      var colon := SkipWhitespace(key.rest);
      if !StartsWith(colon, ':') then Err(Expected(':'))
      else match ParseString(SkipWhitespace(colon[1..]))
        case Err(e) => Err(e)
        case Ok(value) => Ok(Parsed((key.value, value.value), value.rest))
  }

  /** The start of one iteration of the object parser: the closing brace, or a
      pair and the input at the separator that must follow it. */
  datatype Step = Close(rest: string) | Pair(key: string, value: string, separator: string)

  function ParseStep(input: string): (r: Result<Step>)
    ensures r.Ok? && r.value.Pair? ==> |r.value.separator| < |input|
  {
    var start := SkipWhitespace(input);
    if StartsWith(start, '}') then Ok(Close(start[1..]))
    else match ParseField(start)
      case Err(e) => Err(e)
      case Ok(field) => Ok(Pair(field.value.0, field.value.1, SkipWhitespace(field.rest)))
  }

  /** The loop of the object parser, from the top of one iteration. */
  function ParseFields(input: string, fields: map<string, string>): Result<Parsed<map<string, string>>>
    decreases |input|
  {
    match ParseStep(input)
    case Err(e) => Err(e)
    case Ok(Close(rest)) => Ok(Parsed(fields, rest))
    case Ok(Pair(key, value, separator)) =>
      var grown := fields[key := value];
      if key in fields then Err(DuplicateField(key))
      else if StartsWith(separator, '}') then Ok(Parsed(grown, separator[1..]))
      else if StartsWith(separator, ',') then ParseFields(separator[1..], grown)
      else Err(Expected(','))
  }

  function ParseObject(input: string): Result<map<string, string>> {
    var start := SkipWhitespace(input);
    if !StartsWith(start, '{') then Err(Expected('{'))
    else match ParseFields(start[1..], map[])
      case Err(e) => Err(e)
      case Ok(p) => if SkipWhitespace(p.rest) == "" then Ok(p.value) else Err(TrailingContent)
  }

  class JsonCursor {
    var characters: string

    constructor (value: string)
      ensures characters == value
    {
      characters := value;
    }

    method Next() returns (c: Option<char>)
      modifies this
      ensures old(characters) == "" ==> c == None && characters == ""
      ensures old(characters) != "" ==>
                c == Some(old(characters)[0]) && characters == old(characters)[1..]
    {
      if characters == "" { return None; }
      c := Some(characters[0]);
      characters := characters[1..];
    }

    method Whitespace()
      modifies this
      ensures characters == SkipWhitespace(old(characters))
    {
      while characters != "" && IsWhitespace(characters[0])
        invariant SkipWhitespace(characters) == SkipWhitespace(old(characters))
        decreases |characters|
      {
        characters := characters[1..];
      }
    }

    method Consume(expected: char) returns (found: bool)
      modifies this
      ensures found == StartsWith(old(characters), expected)
      ensures characters == if found then old(characters)[1..] else old(characters)
    {
      found := characters != "" && characters[0] == expected;
      if found { characters := characters[1..]; }
    }

    method ReadUnicodeEscape() returns (r: Result<char>)
      modifies this
      ensures match UnicodeEscape(old(characters))
              case Ok(p) => r == Ok(p.value) && characters == p.rest
              case Err(e) => r == Err(e)
    {
      var value: nat := 0;
      ghost var input := characters;
      for i := 0 to 4
        invariant i <= |input| && characters == input[i..]
        invariant HexValue(input[..i]) == Some(value)
      {
        var c := Next();
        if c.None? { return Err(InvalidUnicodeEscape); }
        assert input[..i + 1][..i] == input[..i];
        var digit := HexDigit(c.value);
        if digit.None? {
          HexPrefix(input, i + 1);
          return Err(InvalidUnicodeEscape);
        }
        value := value * 16 + digit.value;
      }
      HexValueBound(input[..4]);
      if !IsScalar(value) { return Err(InvalidUnicodeScalar); }
      r := Ok(value as char);
    }

    method ReadString() returns (r: Result<string>)
      modifies this
      ensures match ParseString(old(characters))
              case Ok(p) => r == Ok(p.value) && characters == p.rest
              case Err(e) => r == Err(e)
    {
      var open := Consume('"');
      if !open { return Err(Expected('"')); }
      var value := "";
      PrependNothing(ParseBody(characters));
      while true
        invariant ParseString(old(characters)) == Prepend(value, ParseBody(characters))
        decreases |characters|
      {
        ghost var input, before := characters, value;
        var c := Next();
        if c.None? { return Err(UnterminatedString); }
        if c.value == '"' {
          assert value + "" == value;
          return Ok(value);
        }
        if c.value == '\\' {
          var escaped := Next();
          if escaped.None? { return Err(UnterminatedEscape); }
          if escaped.value == 'u' {
            assert characters == input[2..];
            var u := ReadUnicodeEscape();
            if u.Err? { return Err(u.error); }
            value := value + [u.value];
          } else {
            assert characters == input[2..];
            var short := ShortMeaning(escaped.value);
            if short.None? { return Err(InvalidEscape(escaped.value)); }
            value := value + [short.value];
          }
        } else if IsControl(c.value) {
          return Err(ControlCharacter);
        } else {
          value := value + [c.value];
        }
        PrependTwice(before, value[|before|..], ParseBody(characters));
      }
    }

    /** Reads the whole input as one object. */
    method ReadObject() returns (r: Result<map<string, string>>)
      modifies this
      ensures r == ParseObject(old(characters))
    {
      Whitespace();
      var open := Consume('{');
      if !open { return Err(Expected('{')); }
      ghost var body := characters;
      var fields: map<string, string> := map[];
      while true
        invariant ParseFields(characters, fields) == ParseFields(body, map[])
        decreases |characters|
      {
        Whitespace();
        var done := Consume('}');
        if done { break; }
        var key := ReadString();
        if key.Err? { return Err(key.error); }
        Whitespace();
        var colon := Consume(':');
        if !colon { return Err(Expected(':')); }
        Whitespace();
        var value := ReadString();
        if value.Err? { return Err(value.error); }
        if key.value in fields { return Err(DuplicateField(key.value)); }
        fields := fields[key.value := value.value];
        Whitespace();
        done := Consume('}');
        if done { break; }
        var comma := Consume(',');
        if !comma { return Err(Expected(',')); }
      }
      assert ParseFields(body, map[]) == Ok(Parsed(fields, characters));
      Whitespace();
      var extra := Next();
      if extra.Some? { return Err(TrailingContent); }
      r := Ok(fields);
    }
  }

  lemma {:induction false} HexPrefix(input: string, i: nat)
    requires i <= 4 && i <= |input| && HexValue(input[..i]).None?
    ensures |input| < 4 || HexValue(input[..4]).None?
    decreases 4 - i
  {
    if i < 4 && i < |input| {
      assert input[..i + 1][..i] == input[..i];
      HexPrefix(input, i + 1);
    }
  }

  // ----- The reference grammar of a document -----

  /** A written field with the white space around its tokens. */
  datatype Field = Field(before: string, key: seq<Piece>, beforeColon: string,
                         afterColon: string, value: seq<Piece>, after: string)

  /** A written object: `close` stands before a `}` that follows `{` or a comma. */
  datatype Document = Document(lead: string, fields: seq<Field>, trailingComma: bool,
                               close: string, tail: string)

  predicate Space(s: string) { forall i :: 0 <= i < |s| ==> IsWhitespace(s[i]) }

  predicate ValidField(f: Field) {
    && ValidPieces(f.key) && ValidPieces(f.value)
    && Space(f.before) && Space(f.beforeColon) && Space(f.afterColon) && Space(f.after)
  }

  predicate ValidFields(fs: seq<Field>) { forall i :: 0 <= i < |fs| ==> ValidField(fs[i]) }

  predicate ValidDocument(d: Document) {
    && ValidFields(d.fields) && Space(d.lead) && Space(d.close) && Space(d.tail)
    && (d.fields == [] ==> !d.trailingComma)
  }

  function PrintPair(f: Field): string {
    Quoted(f.key) + (f.beforeColon + (":" + (f.afterColon + Quoted(f.value))))
  }

  function PrintFields(fs: seq<Field>, trailingComma: bool, close: string): string {
    if fs == [] then close
    else fs[0].before + (PrintPair(fs[0]) + (fs[0].after +
         (if |fs| == 1 && !trailingComma then "" else "," + PrintFields(fs[1..], trailingComma, close))))
  }

  function PrintDocument(d: Document): string {
    d.lead + ("{" + (PrintFields(d.fields, d.trailingComma, d.close) + ("}" + d.tail)))
  }

  function KeyOf(f: Field): string requires ValidField(f) { Meaning(f.key) }

  /** The fields as a map, or the first key met twice. */
  function Collect(fs: seq<Field>, fields: map<string, string>): Result<map<string, string>>
    requires ValidFields(fs)
  {
    if fs == [] then Ok(fields)
    else if KeyOf(fs[0]) in fields then Err(DuplicateField(KeyOf(fs[0])))
    else Collect(fs[1..], fields[KeyOf(fs[0]) := Meaning(fs[0].value)])
  }

  lemma {:induction false} SkipSpace(gap: string, t: string)
    requires Space(gap) && (t != "" ==> !IsWhitespace(t[0]))
    ensures SkipWhitespace(gap + t) == t
  {
    if gap == "" {
      assert gap + t == t;
    } else {
      assert (gap + t)[1..] == gap[1..] + t;
      SkipSpace(gap[1..], t);
    }
  }

  lemma Assoc(a: string, b: string, c: string, d: string)
    ensures (a + (b + c)) + d == a + (b + (c + d))
  {}

  lemma AssocPair(f: Field, t: string)
    ensures PrintPair(f) + t ==
            Quoted(f.key) + (f.beforeColon + (":" + (f.afterColon + (Quoted(f.value) + t))))
  {
    Assoc(Quoted(f.key), f.beforeColon, ":" + (f.afterColon + Quoted(f.value)), t);
    Assoc(":", f.afterColon, Quoted(f.value), t);
  }

  lemma ParseFieldAccepts(f: Field, t: string)
    requires ValidField(f)
    ensures ParseField(PrintPair(f) + t) == Ok(Parsed((KeyOf(f), Meaning(f.value)), t))
  {
    AssocPair(f, t);
    var afterColon := f.afterColon + (Quoted(f.value) + t);
    var colon := ":" + afterColon;
    ParseAccepts(f.key, f.beforeColon + colon);
    SkipSpace(f.beforeColon, colon);
    assert colon[1..] == afterColon;
    SkipSpace(f.afterColon, Quoted(f.value) + t);
    ParseAccepts(f.value, t);
  }

  lemma StepAccepts(f: Field, rest: string)
    requires ValidField(f) && (StartsWith(rest, '}') || StartsWith(rest, ','))
    ensures ParseStep(f.before + (PrintPair(f) + (f.after + rest))) ==
            Ok(Pair(KeyOf(f), Meaning(f.value), rest))
  {
    var pair := PrintPair(f) + (f.after + rest);
    QuotedFirst(f.key, f.beforeColon + (":" + (f.afterColon + Quoted(f.value))));
    assert pair[0] == '"';
    SkipSpace(f.before, pair);
    ParseFieldAccepts(f, f.after + rest);
    SkipSpace(f.after, rest);
  }

  lemma QuotedFirst(ps: seq<Piece>, t: string)
    ensures StartsWith(Quoted(ps) + t, '"')
  {}

  lemma {:induction false} ParseFieldsAccepts(fs: seq<Field>, trailingComma: bool, close: string,
                                              tail: string, fields: map<string, string>)
    requires ValidFields(fs) && Space(close)
    ensures ParseFields(PrintFields(fs, trailingComma, close) + ("}" + tail), fields) ==
            match Collect(fs, fields)
            case Ok(m) => Ok(Parsed(m, tail))
            case Err(e) => Err(e)
  {
    var end := "}" + tail;
    assert end[1..] == tail;
    if fs == [] {
      SkipSpace(close, end);
    } else {
      var f := fs[0];
      assert fs == [f] + fs[1..];
      if |fs| == 1 && !trailingComma {
        PrintLast(f, end);
        StepAccepts(f, end);
        assert fs[1..] == [];
      } else {
        var more := PrintFields(fs[1..], trailingComma, close) + end;
        var rest := "," + more;
        assert rest[1..] == more;
        PrintMore(f, fs[1..], trailingComma, close, end);
        StepAccepts(f, rest);
        if KeyOf(f) !in fields {
          ParseFieldsAccepts(fs[1..], trailingComma, close, tail,
                             fields[KeyOf(f) := Meaning(f.value)]);
        }
      }
    }
  }

  /** Parsing any spelling of a document collects its fields. */
  lemma ParseDocument(d: Document)
    requires ValidDocument(d)
    ensures ParseObject(PrintDocument(d)) == Collect(d.fields, map[])
  {
    var body := PrintFields(d.fields, d.trailingComma, d.close) + ("}" + d.tail);
    var open := "{" + body;
    SkipSpace(d.lead, open);
    assert open[1..] == body;
    ParseFieldsAccepts(d.fields, d.trailingComma, d.close, d.tail, map[]);
    assert d.tail + "" == d.tail;
    SkipSpace(d.tail, "");
  }

  lemma {:induction false} SplitSpace(input: string) returns (gap: string)
    ensures input == gap + SkipWhitespace(input) && Space(gap)
  {
    if input != "" && IsWhitespace(input[0]) {
      gap := SplitSpace(input[1..]);
      gap := [input[0]] + gap;
    } else {
      gap := "";
    }
  }

  lemma SplitHead(input: string, c: char)
    requires StartsWith(input, c)
    ensures input == [c] + input[1..]
  {}

  /** Whatever the object parser accepts is a document of the grammar. */
  lemma ParseObjectSound(input: string) returns (d: Document)
    requires ParseObject(input).Ok?
    ensures ValidDocument(d) && PrintDocument(d) == input
  {
    var start := SkipWhitespace(input);
    var lead := SplitSpace(input);
    SplitHead(start, '{');
    var rest := ParseFields(start[1..], map[]).value.rest;
    var fs, trailing, close := ParseFieldsSound(start[1..], map[], false);
    var tail := SplitSpace(rest);
    assert tail + "" == tail;
    d := Document(lead, fs, trailing, close, tail);
  }

  /** A pair read by one iteration is a written field. */
  lemma StepSound(input: string) returns (f: Field)
    requires ParseStep(input).Ok? && ParseStep(input).value.Pair?
    ensures ValidField(f) && KeyOf(f) == ParseStep(input).value.key
    ensures input == f.before + (PrintPair(f) + (f.after + ParseStep(input).value.separator))
  {
    var start := SkipWhitespace(input);
    var gap := SplitSpace(input);
    var g := ParseFieldSound(start);
    var space := SplitSpace(ParseField(start).value.rest);
    f := g.(before := gap, after := space);
  }

  lemma {:induction false} ParseFieldsSound(input: string, fields: map<string, string>, comma: bool)
    returns (fs: seq<Field>, trailingComma: bool, close: string)
    requires ParseFields(input, fields).Ok?
    ensures ValidFields(fs) && Space(close)
    ensures fs == [] ==> trailingComma == comma
    ensures input == PrintFields(fs, trailingComma, close) +
                     ("}" + ParseFields(input, fields).value.rest)
    decreases |input|
  {
    var step := ParseStep(input).value;
    if step.Close? {
      var gap := SplitSpace(input);
      SplitHead(SkipWhitespace(input), '}');
      fs, trailingComma, close := [], comma, gap;
    } else {
      var f := StepSound(input);
      var end := "}" + ParseFields(input, fields).value.rest;
      if StartsWith(step.separator, '}') {
        SplitHead(step.separator, '}');
        fs, trailingComma, close := [f], false, "";
        PrintLast(f, end);
      } else {
        SplitHead(step.separator, ',');
        var more;
        more, trailingComma, close :=
          ParseFieldsSound(step.separator[1..], fields[step.key := step.value], true);
        fs := [f] + more;
        PrintMore(f, more, trailingComma, close, end);
      }
    }
  }

  lemma PrintLast(f: Field, end: string)
    ensures PrintFields([f], false, "") + end == f.before + (PrintPair(f) + (f.after + end))
  {
    Assoc(f.before, PrintPair(f), f.after + "", end);
    assert f.after + "" == f.after;
  }

  lemma PrintMore(f: Field, more: seq<Field>, trailingComma: bool, close: string, end: string)
    requires more == [] ==> trailingComma
    ensures PrintFields([f] + more, trailingComma, close) + end ==
            f.before + (PrintPair(f) + (f.after + ("," + (PrintFields(more, trailingComma, close) + end))))
  {
    assert ([f] + more)[1..] == more;
    var rest := PrintFields(more, trailingComma, close);
    Assoc(f.before, PrintPair(f), f.after + ("," + rest), end);
    Assoc(f.after, ",", rest, end);
  }

  lemma ParseFieldSound(input: string) returns (f: Field)
    requires ParseField(input).Ok?
    ensures ValidField(f) && KeyOf(f) == ParseField(input).value.value.0
    ensures input == PrintPair(f) + ParseField(input).value.rest
  {
    var key := ParseString(input).value;
    var colon := SkipWhitespace(key.rest);
    var quoted := SkipWhitespace(colon[1..]);
    var k := ParseSound(input);
    var v := ParseSound(quoted);
    var beforeColon := SplitSpace(key.rest);
    var afterColon := SplitSpace(colon[1..]);
    SplitHead(colon, ':');
    f := Field("", k, beforeColon, afterColon, v, "");
    AssocPair(f, ParseField(input).value.rest);
  }

  predicate DistinctKeys(fs: seq<Field>)
    requires ValidFields(fs)
  {
    forall i, j :: 0 <= i < j < |fs| ==> KeyOf(fs[i]) != KeyOf(fs[j])
  }

  /** Exactly the fields `fs`, on top of `base`. */
  ghost predicate Holds(m: map<string, string>, fs: seq<Field>, base: map<string, string>)
    requires ValidFields(fs)
  {
    && (forall i :: 0 <= i < |fs| ==> KeyOf(fs[i]) in m && m[KeyOf(fs[i])] == Meaning(fs[i].value))
    && (forall k <- base :: k in m && m[k] == base[k])
    && (forall k <- m :: k in base || exists i :: 0 <= i < |fs| && k == KeyOf(fs[i]))
  }

  lemma {:induction false} CollectDistinct(fs: seq<Field>, base: map<string, string>)
    requires ValidFields(fs)
    ensures Collect(fs, base).Ok? <==> DistinctKeys(fs) && FreshKeys(fs, base)
    ensures Collect(fs, base).Ok? ==> Holds(Collect(fs, base).value, fs, base)
    ensures Collect(fs, base).Err? ==> Collect(fs, base).error.DuplicateField?
  {
    if fs != [] && KeyOf(fs[0]) !in base {
      var f, tail := fs[0], fs[1..];
      var grown := base[KeyOf(f) := Meaning(f.value)];
      CollectDistinct(tail, grown);
      assert fs == [f] + tail;
      DistinctCons(f, tail, base);
      if Collect(tail, grown).Ok? {
        HoldsCons(Collect(tail, grown).value, f, tail, base);
      }
    }
  }

  predicate FreshKeys(fs: seq<Field>, base: map<string, string>)
    requires ValidFields(fs)
  {
    forall i :: 0 <= i < |fs| ==> KeyOf(fs[i]) !in base
  }

  lemma DistinctCons(f: Field, tail: seq<Field>, base: map<string, string>)
    requires ValidField(f) && ValidFields(tail) && ValidFields([f] + tail) && KeyOf(f) !in base
    ensures DistinctKeys([f] + tail) && FreshKeys([f] + tail, base) <==>
            DistinctKeys(tail) && FreshKeys(tail, base[KeyOf(f) := Meaning(f.value)])
  {
    var fs := [f] + tail;
    assert forall i :: 0 <= i < |tail| ==> tail[i] == fs[i + 1];
    assert forall i :: 0 < i < |fs| ==> fs[i] == tail[i - 1];
    assert fs[0] == f;
  }

  lemma HoldsCons(m: map<string, string>, f: Field, tail: seq<Field>, base: map<string, string>)
    requires ValidField(f) && ValidFields(tail) && ValidFields([f] + tail) && KeyOf(f) !in base
    requires Holds(m, tail, base[KeyOf(f) := Meaning(f.value)])
    ensures Holds(m, [f] + tail, base)
  {
    var fs, grown := [f] + tail, base[KeyOf(f) := Meaning(f.value)];
    assert KeyOf(f) in grown && fs[0] == f;
    assert forall i :: 0 < i < |fs| ==> fs[i] == tail[i - 1];
    assert forall k <- base :: k in grown && grown[k] == base[k];
    forall k <- m
      ensures k in base || exists i :: 0 <= i < |fs| && k == KeyOf(fs[i])
    {
      if k !in grown {
        var i :| 0 <= i < |tail| && k == KeyOf(tail[i]);
        assert fs[i + 1] == tail[i];
      }
    }
  }

  /** A document is read back as exactly its fields when its keys are distinct,
      and refused as a duplicate otherwise, in every spelling and spacing. */
  lemma DocumentRoundTrip(d: Document)
    requires ValidDocument(d)
    ensures match ParseObject(PrintDocument(d))
            case Ok(m) => DistinctKeys(d.fields) && Holds(m, d.fields, map[])
            case Err(e) => !DistinctKeys(d.fields) && e.DuplicateField?
  {
    ParseDocument(d);
    CollectDistinct(d.fields, map[]);
  }

  /** The object parser accepts exactly the documents with distinct keys. */
  lemma ParseObjectExact(input: string)
    ensures ParseObject(input).Ok? <==>
            exists d :: ValidDocument(d) && PrintDocument(d) == input && DistinctKeys(d.fields)
  {
    if ParseObject(input).Ok? {
      var d := ParseObjectSound(input);
      DocumentRoundTrip(d);
    }
    forall d | ValidDocument(d) && PrintDocument(d) == input && DistinctKeys(d.fields)
      ensures ParseObject(input).Ok?
    {
      DocumentRoundTrip(d);
    }
  }

  // ----- Printing a map with the string encoder -----

  datatype Entry = Entry(before: string, key: string, beforeColon: string,
                         afterColon: string, value: string, after: string)

  /** An object written with `Encode`: entries joined by commas. */
  function PrintEntries(es: seq<Entry>): string {
    if es == [] then ""
    else es[0].before + (Encode(es[0].key) + (es[0].beforeColon + (":" +
         (es[0].afterColon + Encode(es[0].value)))) + (es[0].after +
         (if |es| == 1 then "" else "," + PrintEntries(es[1..]))))
  }

  predicate SpacedEntry(e: Entry) {
    Space(e.before) && Space(e.beforeColon) && Space(e.afterColon) && Space(e.after)
  }

  predicate SpacedEntries(es: seq<Entry>) { forall i :: 0 <= i < |es| ==> SpacedEntry(es[i]) }

  function EntryField(e: Entry): Field {
    Field(e.before, Pieces(e.key), e.beforeColon, e.afterColon, Pieces(e.value), e.after)
  }

  function EntryFields(es: seq<Entry>): seq<Field> {
    seq(|es|, i requires 0 <= i < |es| => EntryField(es[i]))
  }

  lemma {:induction false} EntriesAreFields(es: seq<Entry>)
    requires SpacedEntries(es)
    ensures ValidFields(EntryFields(es))
    ensures forall i :: 0 <= i < |es| ==>
              KeyOf(EntryFields(es)[i]) == es[i].key &&
              Meaning(EntryFields(es)[i].value) == es[i].value
    ensures PrintFields(EntryFields(es), false, "") == PrintEntries(es)
  {
    var fs := EntryFields(es);
    forall i | 0 <= i < |es|
      ensures ValidField(fs[i]) && KeyOf(fs[i]) == es[i].key
      ensures Meaning(fs[i].value) == es[i].value
      ensures Quoted(fs[i].key) == Encode(es[i].key) && Quoted(fs[i].value) == Encode(es[i].value)
    {
      PiecesCorrect(es[i].key);
      PiecesCorrect(es[i].value);
    }
    if es != [] {
      EntriesAreFields(es[1..]);
      assert fs[1..] == EntryFields(es[1..]);
    }
  }

  ghost predicate Represents(es: seq<Entry>, m: map<string, string>) {
    && (forall i, j :: 0 <= i < j < |es| ==> es[i].key != es[j].key)
    && (forall i :: 0 <= i < |es| ==> es[i].key in m && m[es[i].key] == es[i].value)
    && (forall k <- m :: exists i :: 0 <= i < |es| && es[i].key == k)
  }

  /** Printing a string map in any field order and any spacing, then parsing,
      gives the map back. */
  lemma MapRoundTrip(m: map<string, string>, es: seq<Entry>, lead: string, tail: string)
    requires Represents(es, m) && SpacedEntries(es) && Space(lead) && Space(tail)
    ensures ParseObject(lead + ("{" + (PrintEntries(es) + ("}" + tail)))) == Ok(m)
  {
    EntriesAreFields(es);
    var d := Document(lead, EntryFields(es), false, "", tail);
    EntriesDistinct(es, m);
    DocumentRoundTrip(d);
    HoldsSame(es, m, ParseObject(PrintDocument(d)).value);
  }

  lemma EntriesDistinct(es: seq<Entry>, m: map<string, string>)
    requires Represents(es, m) && SpacedEntries(es)
    ensures ValidFields(EntryFields(es)) && DistinctKeys(EntryFields(es))
  {
    EntriesAreFields(es);
  }

  lemma EntryFieldAt(es: seq<Entry>, i: nat)
    requires SpacedEntries(es) && i < |es|
    ensures ValidField(EntryFields(es)[i]) && KeyOf(EntryFields(es)[i]) == es[i].key
    ensures Meaning(EntryFields(es)[i].value) == es[i].value
  {
    EntriesAreFields(es);
  }

  lemma PrintedIsParsed(es: seq<Entry>, m: map<string, string>, parsed: map<string, string>, k: string)
    requires Represents(es, m) && SpacedEntries(es) && ValidFields(EntryFields(es))
    requires Holds(parsed, EntryFields(es), map[]) && k in m
    ensures k in parsed && parsed[k] == m[k]
  {
    var i :| 0 <= i < |es| && es[i].key == k;
    EntryFieldAt(es, i);
    assert KeyOf(EntryFields(es)[i]) == k;
  }

  lemma ParsedWasPrinted(es: seq<Entry>, m: map<string, string>, parsed: map<string, string>, k: string)
    requires Represents(es, m) && SpacedEntries(es) && ValidFields(EntryFields(es))
    requires Holds(parsed, EntryFields(es), map[]) && k in parsed
    ensures k in m
  {
    var i :| 0 <= i < |EntryFields(es)| && k == KeyOf(EntryFields(es)[i]);
    EntryFieldAt(es, i);
  }

  lemma HoldsSame(es: seq<Entry>, m: map<string, string>, parsed: map<string, string>)
    requires Represents(es, m) && SpacedEntries(es) && ValidFields(EntryFields(es))
    requires Holds(parsed, EntryFields(es), map[])
    ensures parsed == m
  {
    forall k <- m ensures k in parsed && parsed[k] == m[k] { PrintedIsParsed(es, m, parsed, k); }
    forall k <- parsed ensures k in m { ParsedWasPrinted(es, m, parsed, k); }
  }
}
