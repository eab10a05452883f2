/** Byte offsets and (line, byte column) positions in UTF-8 text. */
module DocumentEditor {
  import opened Text

  type Bytes = seq<Byte>

  const NEWLINE: Byte := 0x0A
  const U32_MAX: nat := 0xFFFF_FFFF

  // ----- UTF-8 (RFC 3629, section 4) -----

  predicate Continuation(b: Byte) { 0x80 <= b <= 0xBF }

  /** The length of the well-formed character at the front of `s`, or 0. */
  function FrontLength(s: Bytes): (n: nat)
    ensures n <= |s|
    ensures n > 0 ==> !Continuation(s[0]) && forall i :: 1 <= i < n ==> Continuation(s[i])
    ensures n > 1 ==> s[0] >= 0x80
  {
    if |s| >= 1 && s[0] <= 0x7F then 1
    else if |s| >= 2 && 0xC2 <= s[0] <= 0xDF && Continuation(s[1]) then 2
    else if |s| >= 3 && 0xE0 <= s[0] <= 0xEF && Continuation(s[1]) && Continuation(s[2])
            && (s[0] == 0xE0 ==> s[1] >= 0xA0) && (s[0] == 0xED ==> s[1] <= 0x9F) then 3
    else if |s| >= 4 && 0xF0 <= s[0] <= 0xF4 && Continuation(s[1]) && Continuation(s[2]) && Continuation(s[3])
            && (s[0] == 0xF0 ==> s[1] >= 0x90) && (s[0] == 0xF4 ==> s[1] <= 0x8F) then 4
    else 0
  }

  predicate ValidUtf8(s: Bytes) {
    s == [] || (FrontLength(s) > 0 && ValidUtf8(s[FrontLength(s)..]))
  }

  predicate Boundary(s: Bytes, i: nat) {
    i <= |s| && (i == 0 || i == |s| || !Continuation(s[i]))
  }

  /** Neither the text nor any of its lines starts inside a character. */
  predicate LinesStartClean(s: Bytes) {
    && (s != [] ==> !Continuation(s[0]))
    && forall i :: 0 < i < |s| && s[i - 1] == NEWLINE ==> !Continuation(s[i])
  }

  lemma {:induction false} ValidTextStartsClean(s: Bytes)
    requires ValidUtf8(s)
    ensures LinesStartClean(s)
  {
    if s != [] {
      var n := FrontLength(s);
      var rest := s[n..];
      ValidTextStartsClean(rest);
      forall i | 0 < i < |s| && s[i - 1] == NEWLINE
        ensures !Continuation(s[i])
      {
        if i == n {
          assert s[i] == rest[0];
        } else if i > n {
          assert s[i] == rest[i - n] && s[i - 1] == rest[i - n - 1];
        }
      }
    }
  }

  // ----- Lines -----

  /** The first line break at or after `from`, or the end of the text. */
  function FirstBreak(s: Bytes, from: nat): (i: nat)
    requires from <= |s|
    ensures from <= i <= |s|
    decreases |s| - from
  {
    if from == |s| || s[from] == NEWLINE then from else FirstBreak(s, from + 1)
  }

  /** The text from `from` to the next line break. */
  function LineFrom(s: Bytes, from: nat): Bytes
    requires from <= |s|
  {
    s[from..FirstBreak(s, from)]
  }

  /** The lines from `from` on, without their line breaks. */
  function LinesFrom(s: Bytes, from: nat): (lines: seq<Bytes>)
    requires from <= |s|
    ensures |lines| > 0
    decreases |s| - from
  {
    var i := FirstBreak(s, from);
    if i == |s| then [LineFrom(s, from)] else [LineFrom(s, from)] + LinesFrom(s, i + 1)
  }

  function Lines(s: Bytes): (lines: seq<Bytes>)
    ensures |lines| > 0
  {
    LinesFrom(s, 0)
  }

  /** The start of the `n`-th line after the one that starts at `from`. */
  function LineStart(s: Bytes, from: nat, n: nat): (start: Option<nat>)
    requires from <= |s|
    ensures start.Some? ==> from <= start.value <= |s|
    decreases n
  {
    if n == 0 then Some(from)
    else
      var i := FirstBreak(s, from);
      if i == |s| then None else LineStart(s, i + 1, n - 1)
  }

  /** The number of line breaks before an offset. */
  function CountBreaks(s: Bytes, offset: nat): (n: nat)
    requires offset <= |s|
    ensures n <= offset
  {
    if offset == 0 then 0 else CountBreaks(s, offset - 1) + if s[offset - 1] == NEWLINE then 1 else 0
  }

  /** The index after the last line break before an offset, or 0. */
  function LastLineStart(s: Bytes, offset: nat): (i: nat)
    requires offset <= |s|
    ensures i <= offset
  {
    if offset == 0 then 0 else if s[offset - 1] == NEWLINE then offset else LastLineStart(s, offset - 1)
  }

  datatype Position = Position(line: nat, column: nat)

  predicate Before(p: Position, q: Position) {
    p.line < q.line || (p.line == q.line && p.column < q.column)
  }

  /** Line and byte column of an offset. */
  function PositionAt(s: Bytes, offset: nat): Position
    requires offset <= |s|
  {
    Position(CountBreaks(s, offset), offset - LastLineStart(s, offset))
  }

  predicate FitsU32(p: Position) { p.line <= U32_MAX && p.column <= U32_MAX }

  function BytePosition(s: Bytes, offset: nat): Option<Position> {
    if !Boundary(s, offset) || !FitsU32(PositionAt(s, offset)) then None else Some(PositionAt(s, offset))
  }

  /** The offset of a position: a boundary of one of the lines. */
  function OffsetAt(s: Bytes, p: Position): Option<nat> {
    match LineStart(s, 0, p.line)
    case None => None
    case Some(start) => if Boundary(LineFrom(s, start), p.column) then Some(start + p.column) else None
  }

  // ----- Line starts -----

  lemma {:induction false} BreakIsFirst(s: Bytes, from: nat, j: nat)
    requires from <= j < |s| && s[j] == NEWLINE
    ensures FirstBreak(s, from) <= j && s[FirstBreak(s, from)] == NEWLINE
    decreases j - from
  {
    if from < j && s[from] != NEWLINE { BreakIsFirst(s, from + 1, j); }
  }

  lemma {:induction false} BreakIsBreak(s: Bytes, from: nat)
    requires from <= |s| && FirstBreak(s, from) < |s|
    ensures s[FirstBreak(s, from)] == NEWLINE
    decreases |s| - from
  {
    if s[from] != NEWLINE { BreakIsBreak(s, from + 1); }
  }

  lemma {:induction false} NextLineStart(s: Bytes, from: nat, n: nat)
    requires from <= |s| && LineStart(s, from, n).Some?
    ensures var i := FirstBreak(s, LineStart(s, from, n).value);
            LineStart(s, from, n + 1) == if i == |s| then None else Some(i + 1)
    decreases n
  {
    if n > 0 { NextLineStart(s, FirstBreak(s, from) + 1, n - 1); }
  }

  lemma {:induction false} LineAt(s: Bytes, from: nat, n: nat)
    requires from <= |s|
    ensures n < |LinesFrom(s, from)| <==> LineStart(s, from, n).Some?
    ensures n < |LinesFrom(s, from)| ==>
              LinesFrom(s, from)[n] == LineFrom(s, LineStart(s, from, n).value)
    decreases n
  {
    var i := FirstBreak(s, from);
    if n > 0 && i < |s| {
      LineAt(s, i + 1, n - 1);
    }
  }

  lemma LineStep(s: Bytes, n: nat)
    requires n + 1 < |Lines(s)|
    ensures LineStart(s, 0, n).Some?
    ensures LineStart(s, 0, n + 1) == Some(LineStart(s, 0, n).value + |Lines(s)[n]| + 1)
  {
    LineAt(s, 0, n);
    LineAt(s, 0, n + 1);
    NextLineStart(s, 0, n);
  }

  /** The line of an offset starts after the last break, and reaches to the offset. */
  lemma {:induction false} LineOfOffset(s: Bytes, offset: nat)
    requires offset <= |s|
    ensures LineStart(s, 0, CountBreaks(s, offset)) == Some(LastLineStart(s, offset))
    ensures FirstBreak(s, LastLineStart(s, offset)) >= offset
  {
    if offset > 0 {
      LineOfOffset(s, offset - 1);
      var start := LastLineStart(s, offset - 1);
      if s[offset - 1] == NEWLINE {
        BreakIsFirst(s, start, offset - 1);
        NextLineStart(s, 0, CountBreaks(s, offset - 1));
      } else if FirstBreak(s, start) < |s| {
        BreakIsBreak(s, start);
      }
    }
  }

  lemma {:induction false} LineStartReadsBack(s: Bytes, from: nat, n: nat)
    requires from <= |s| && LastLineStart(s, from) == from && LineStart(s, from, n).Some?
    ensures var start := LineStart(s, from, n).value;
            LastLineStart(s, start) == start && CountBreaks(s, start) == CountBreaks(s, from) + n
    decreases n
  {
    if n > 0 {
      var i := FirstBreak(s, from);
      WithinLine(s, from, i);
      BreakIsBreak(s, from);
      LineStartReadsBack(s, i + 1, n - 1);
    }
  }

  /** No break lies between the start of a line and its first break. */
  lemma {:induction false} WithinLine(s: Bytes, start: nat, offset: nat)
    requires start <= |s| && start <= offset <= FirstBreak(s, start) && LastLineStart(s, start) == start
    ensures CountBreaks(s, offset) == CountBreaks(s, start) && LastLineStart(s, offset) == start
  {
    if start < offset {
      WithinLine(s, start, offset - 1);
      if s[offset - 1] == NEWLINE { BreakIsFirst(s, start, offset - 1); }
    }
  }

  // ----- Round trips -----

  /** Every boundary offset is recovered from its position. */
  lemma OffsetOfPosition(s: Bytes, offset: nat)
    requires Boundary(s, offset)
    ensures OffsetAt(s, PositionAt(s, offset)) == Some(offset)
  {
    LineOfOffset(s, offset);
  }

  lemma BoundaryFromLine(s: Bytes, start: nat, column: nat)
    requires LinesStartClean(s) && start <= |s| && LastLineStart(s, start) == start
    requires Boundary(LineFrom(s, start), column)
    ensures Boundary(s, start + column)
  {
    var end := FirstBreak(s, start);
    if end < |s| { BreakIsBreak(s, start); }
    if 0 < column < end - start { assert s[start..end][column] == s[start + column]; }
  }

  /** Every offset computed from a position is a boundary with that position. */
  lemma PositionOfOffset(s: Bytes, p: Position)
    requires LinesStartClean(s) && OffsetAt(s, p).Some?
    ensures var o := OffsetAt(s, p).value; Boundary(s, o) && PositionAt(s, o) == p
  {
    var start := LineStart(s, 0, p.line).value;
    LineStartReadsBack(s, 0, p.line);
    BoundaryFromLine(s, start, p.column);
    WithinLine(s, start, start + p.column);
  }

  lemma {:induction false} LaterIsAfter(s: Bytes, a: nat, b: nat)
    requires a < b <= |s|
    ensures Before(PositionAt(s, a), PositionAt(s, b))
    decreases b
  {
    if a + 1 < b { LaterIsAfter(s, a, b - 1); }
  }

  /** Offsets are ordered as their positions. */
  lemma OrderPreserved(s: Bytes, a: nat, b: nat)
    requires a <= |s| && b <= |s|
    ensures a < b <==> Before(PositionAt(s, a), PositionAt(s, b))
  {
    if a < b { LaterIsAfter(s, a, b); }
    if b < a { LaterIsAfter(s, b, a); }
  }

  /** The line of an offset exists and holds its column. */
  lemma PositionInLines(s: Bytes, offset: nat)
    requires Boundary(s, offset)
    ensures var p := PositionAt(s, offset);
            p.line < |Lines(s)| && Boundary(Lines(s)[p.line], p.column)
  {
    LineOfOffset(s, offset);
    LineAt(s, 0, CountBreaks(s, offset));
  }

  // ----- Clamping -----

  /** The largest boundary of the line that is not past the request. */
  function Clamp(line: Bytes, column: nat): (r: nat)
    ensures Boundary(line, r) && r <= column
    ensures forall b :: r < b <= column ==> !Boundary(line, b)
  {
    if Boundary(line, column) then column else Clamp(line, column - 1)
  }

  method ValidByteColumn(line: Bytes, column: nat) returns (offset: nat)
    ensures offset == Clamp(line, column)
  {
    offset := if column < |line| then column else |line|;
    ClampToEnd(line, column);
    while !Boundary(line, offset)
      invariant offset <= |line| && Clamp(line, offset) == Clamp(line, column)
      decreases offset
    {
      offset := offset - 1;
    }
  }

  lemma {:induction false} ClampToEnd(line: Bytes, column: nat)
    ensures column > |line| ==> Clamp(line, column) == |line|
  {
    if column > |line| { ClampToEnd(line, column - 1); }
  }

  // ----- The editor -----

  datatype Cursor = Cursor(position: Position, selection: Option<Position>)

  class TextEditorState {
    var text: Bytes
    var cursor: Cursor

    constructor (text: Bytes)
      ensures this.text == text && cursor == Cursor(Position(0, 0), None)
    {
      this.text := text;
      cursor := Cursor(Position(0, 0), None);
    }

    /** Walks the lines up to the cursor's, adding up their lengths. */
    method CursorOffset() returns (r: Option<nat>)
      ensures r == OffsetAt(text, cursor.position)
    {
      var lines, column := Lines(text), cursor.position.column;
      var offset, i := 0, 0;
      while i < cursor.position.line
        invariant i <= cursor.position.line && i <= |lines|
        invariant i < |lines| ==> LineStart(text, 0, i) == Some(offset)
      {
        if i == |lines| {
          LineAt(text, 0, cursor.position.line);
          return None;
        }
        if i + 1 < |lines| { LineStep(text, i); }
        offset := offset + |lines[i]| + 1;
        i := i + 1;
      }
      LineAt(text, 0, i);
      if i == |lines| || column > |lines[i]| || !Boundary(lines[i], column) { return None; }
      r := Some(offset + column);
    }

    method SelectRange(start: Position, end: Position) returns (ok: bool)
      modifies this`cursor
      ensures ok <==> start.line < |Lines(text)| && end.line < |Lines(text)| && !Before(end, start)
      ensures !ok ==> cursor == old(cursor)
      ensures ok ==>
                var from := Position(start.line, Clamp(Lines(text)[start.line], start.column));
                var to := Position(end.line, Clamp(Lines(text)[end.line], end.column));
                cursor == Cursor(to, if from == to then None else Some(from))
    {
      var lines := Lines(text);
      if start.line >= |lines| || end.line >= |lines| || Before(end, start) { return false; }
      var startColumn := ValidByteColumn(lines[start.line], start.column);
      var endColumn := ValidByteColumn(lines[end.line], end.column);
      var from, to := Position(start.line, startColumn), Position(end.line, endColumn);
      cursor := Cursor(to, if from == to then None else Some(from));
      ok := true;
    }

    /** Selects a byte range: exactly when both ends are boundaries in order whose
        positions fit 32 bits, and then the cursor reads back as that range. */
    method SelectOffsets(start: nat, end: nat) returns (ok: bool)
      requires ValidUtf8(text)
      modifies this`cursor
      ensures ok <==> Boundary(text, start) && Boundary(text, end) && start <= end &&
                      FitsU32(PositionAt(text, start)) && FitsU32(PositionAt(text, end))
      ensures !ok ==> cursor == old(cursor)
      ensures ok ==> OffsetAt(text, cursor.position) == Some(end)
      ensures ok && start == end ==> cursor.selection == None
      ensures ok && start < end ==>
                cursor.selection.Some? && OffsetAt(text, cursor.selection.value) == Some(start)
    {
      var from, to := BytePosition(text, start), BytePosition(text, end);
      if from.None? || to.None? { return false; }
      OrderPreserved(text, start, end);
      OrderPreserved(text, end, start);
      PositionInLines(text, start);
      PositionInLines(text, end);
      OffsetOfPosition(text, start);
      OffsetOfPosition(text, end);
      ok := SelectRange(from.value, to.value);
    }
  }

  /** Offsets of valid text and positions inside it are in one-to-one,
      order-preserving correspondence. */
  lemma Correspondence(s: Bytes, a: nat, p: Position)
    requires ValidUtf8(s)
    ensures Boundary(s, a) ==> OffsetAt(s, PositionAt(s, a)) == Some(a)
    ensures a <= |s| <= U32_MAX ==> FitsU32(PositionAt(s, a))
    ensures OffsetAt(s, p).Some? ==>
              Boundary(s, OffsetAt(s, p).value) && PositionAt(s, OffsetAt(s, p).value) == p
    ensures forall b: nat :: a <= |s| && b <= |s| ==>
              (a < b <==> Before(PositionAt(s, a), PositionAt(s, b)))
  {
    ValidTextStartsClean(s);
    if Boundary(s, a) { OffsetOfPosition(s, a); }
    if OffsetAt(s, p).Some? { PositionOfOffset(s, p); }
    forall b: nat | a <= |s| && b <= |s|
      ensures a < b <==> Before(PositionAt(s, a), PositionAt(s, b))
    {
      OrderPreserved(s, a, b);
    }
  }
}
