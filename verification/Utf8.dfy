/** The editor's text against the definition of UTF-8 (RFC 3629, section 3), and its
    line breaks. */
module Utf8 {
  import opened Text
  import opened DocumentEditor

  predicate Scalar(n: nat) { n < 0xD800 || 0xE000 <= n < 0x11_0000 }

  /** The bytes of a character number. */
  function Bytes(n: nat): seq<Byte>
    requires Scalar(n)
  {
    if n < 0x80 then [n as Byte]
    else if n < 0x800 then [(0xC0 + n / 64) as Byte, Tail(n)]
    else if n < 0x1_0000 then [(0xE0 + n / 4096) as Byte, Tail(n / 64), Tail(n)]
    else [(0xF0 + n / 262144) as Byte, Tail(n / 4096), Tail(n / 64), Tail(n)]
  }

  function Tail(n: nat): (b: Byte)
    ensures Continuation(b)
  {
    (0x80 + n % 64) as Byte
  }

  function Encoded(ns: seq<nat>): seq<Byte>
    requires forall n <- ns :: Scalar(n)
  {
    if ns == [] then [] else Bytes(ns[0]) + Encoded(ns[1..])
  }

  lemma FrontOfScalar(n: nat, rest: seq<Byte>)
    requires Scalar(n)
    ensures FrontLength(Bytes(n) + rest) == |Bytes(n)|
  {}

  lemma Splits(high: nat, low: nat)
    requires low < 64
    ensures (high * 64 + low) / 64 == high && (high * 64 + low) % 64 == low
  {}

  lemma TwoBytes(s: seq<Byte>) returns (n: nat)
    requires FrontLength(s) == 2
    ensures Scalar(n) && s[..2] == Bytes(n)
  {
    var high, low := s[0] as int - 0xC0, s[1] as int - 0x80;
    n := high * 64 + low;
    Splits(high, low);
  }

  lemma ThreeBytes(s: seq<Byte>) returns (n: nat)
    requires FrontLength(s) == 3
    ensures Scalar(n) && s[..3] == Bytes(n)
  {
    var high, mid, low := s[0] as int - 0xE0, s[1] as int - 0x80, s[2] as int - 0x80;
    n := (high * 64 + mid) * 64 + low;
    Splits(high, mid);
    Splits(high * 64 + mid, low);
    assert n / 4096 == high && n / 64 == high * 64 + mid;
  }

  lemma FourBytes(s: seq<Byte>) returns (n: nat)
    requires FrontLength(s) == 4
    ensures Scalar(n) && s[..4] == Bytes(n)
  {
    var high, mid, more, low := s[0] as int - 0xF0, s[1] as int - 0x80, s[2] as int - 0x80, s[3] as int - 0x80;
    n := ((high * 64 + mid) * 64 + more) * 64 + low;
    Splits(high, mid);
    Splits(high * 64 + mid, more);
    Splits((high * 64 + mid) * 64 + more, low);
    assert n / 64 == (high * 64 + mid) * 64 + more;
    assert n / 4096 == high * 64 + mid && n / 262144 == high;
  }

  lemma ScalarOfFront(s: seq<Byte>) returns (n: nat)
    requires FrontLength(s) > 0
    ensures Scalar(n) && s[..FrontLength(s)] == Bytes(n)
  {
    if FrontLength(s) == 1 {
      n := s[0] as int;
    } else if FrontLength(s) == 2 {
      n := TwoBytes(s);
    } else if FrontLength(s) == 3 {
      n := ThreeBytes(s);
    } else {
      n := FourBytes(s);
    }
  }

  /** A text is valid exactly if it encodes some characters. */
  lemma ValidExactly(s: seq<Byte>)
    ensures ValidUtf8(s) <==> exists ns: seq<nat> :: Encodes(ns, s)
  {
    if ValidUtf8(s) { var ns := Decoded(s); }
    if ns :| Encodes(ns, s) { EncodedIsValid(ns); }
  }

  predicate Encodes(ns: seq<nat>, s: seq<Byte>) { (forall n <- ns :: Scalar(n)) && s == Encoded(ns) }

  lemma {:induction false} Decoded(s: seq<Byte>) returns (ns: seq<nat>)
    requires ValidUtf8(s)
    ensures Encodes(ns, s)
  {
    ns := [];
    if s != [] {
      var n := ScalarOfFront(s);
      var rest := Decoded(s[FrontLength(s)..]);
      ns := [n] + rest;
      assert ns[1..] == rest;
      assert s == s[..FrontLength(s)] + s[FrontLength(s)..];
    }
  }

  lemma {:induction false} EncodedIsValid(ns: seq<nat>)
    requires forall n <- ns :: Scalar(n)
    ensures ValidUtf8(Encoded(ns))
  {
    if ns != [] {
      EncodedIsValid(ns[1..]);
      FrontOfScalar(ns[0], Encoded(ns[1..]));
      assert Encoded(ns)[|Bytes(ns[0])|..] == Encoded(ns[1..]);
    }
  }

  // ----- Boundaries -----

  lemma FrontLocal(s: seq<Byte>, t: seq<Byte>)
    requires FrontLength(s) > 0 && |t| >= FrontLength(s) && t[..FrontLength(s)] == s[..FrontLength(s)]
    ensures FrontLength(t) == FrontLength(s)
  {
    assert forall i :: 0 <= i < FrontLength(s) ==> t[i] == t[..FrontLength(s)][i] == s[i];
  }

  /** An offset into a valid text is a boundary exactly if it cuts the text in two valid
      ones. */
  lemma {:induction false} BoundaryExactly(s: seq<Byte>, i: nat)
    requires ValidUtf8(s) && i <= |s|
    ensures Boundary(s, i) <==> ValidUtf8(s[..i]) && ValidUtf8(s[i..])
    decreases |s|
  {
    var n := FrontLength(s);
    if i == 0 {
      assert s[..0] == [] && s[0..] == s;
    } else if i < n {
      assert s[i..][0] == s[i];
    } else {
      var rest := s[n..];
      BoundaryExactly(rest, i - n);
      assert s[..i][..n] == s[..n] && s[..i][n..] == rest[..i - n] && s[i..] == rest[i - n..];
      FrontLocal(s, s[..i]);
      assert i == n && rest != [] ==> !Continuation(rest[0]);
    }
  }

  // ----- Line breaks -----

  ghost function BreaksBefore(s: seq<Byte>, offset: nat): set<nat>
    requires offset <= |s|
  {
    set i: nat | i < offset && s[i] == 0x0A
  }

  lemma BreaksNext(s: seq<Byte>, offset: nat)
    requires offset < |s|
    ensures BreaksBefore(s, offset + 1) ==
            if s[offset] == 0x0A then BreaksBefore(s, offset) + {offset} else BreaksBefore(s, offset)
  {}

  /** The line of an offset is the number of line feeds before it. */
  lemma {:induction false} BreaksExactly(s: seq<Byte>, offset: nat)
    requires offset <= |s|
    ensures CountBreaks(s, offset) == |BreaksBefore(s, offset)|
  {
    if offset == 0 {
      assert BreaksBefore(s, 0) == {};
    } else {
      BreaksExactly(s, offset - 1);
      BreaksNext(s, offset - 1);
    }
  }

  /** The line starts after the last of them. */
  lemma {:induction false} LineStartExactly(s: seq<Byte>, offset: nat)
    requires offset <= |s|
    ensures var start := LastLineStart(s, offset);
            && (start == 0 || s[start - 1] == 0x0A)
            && forall i :: start <= i < offset ==> s[i] != 0x0A
  {
    if offset > 0 { LineStartExactly(s, offset - 1); }
  }
}
