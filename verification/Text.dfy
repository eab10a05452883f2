/** Shared vocabulary: optional values, Unicode white space, trimming, decimal
    rendering, and the order of Rust strings (by scalar value, which is the order
    of their UTF-8 bytes). */
module Text {

  datatype Option<+T> = None | Some(value: T)

  newtype Byte = b: int | 0 <= b < 256

  /** The characters with the Unicode White_Space property. */
  predicate IsWhitespace(c: char) {
    || '\U{0009}' <= c <= '\U{000D}'
    || c == ' ' || c == '\U{0085}' || c == '\U{00A0}' || c == '\U{1680}'
    || '\U{2000}' <= c <= '\U{200A}'
    || c == '\U{2028}' || c == '\U{2029}' || c == '\U{202F}'
    || c == '\U{205F}' || c == '\U{3000}'
  }

  /** The characters of general category Cc. */
  predicate IsControl(c: char) {
    c <= '\U{001F}' || '\U{007F}' <= c <= '\U{009F}'
  }

  function TrimStart(s: string): (r: string)
    ensures r == "" || !IsWhitespace(r[0])
    ensures s != "" && !IsWhitespace(s[0]) ==> r == s
  {
    if s != "" && IsWhitespace(s[0]) then TrimStart(s[1..]) else s
  }

  function TrimEnd(s: string): (r: string)
    ensures r == "" || !IsWhitespace(r[|r| - 1])
    ensures s != "" && !IsWhitespace(s[|s| - 1]) ==> r == s
    ensures r != "" ==> s != "" && r[0] == s[0]
  {
    if s != "" && IsWhitespace(s[|s| - 1]) then TrimEnd(s[..|s| - 1]) else s
  }

  function Trim(s: string): (r: string)
    ensures r == "" || (!IsWhitespace(r[0]) && !IsWhitespace(r[|r| - 1]))
  {
    TrimEnd(TrimStart(s))
  }

  predicate Blank(s: string) { Trim(s) == "" }

  lemma TrimFixed(s: string)
    requires s == "" || (!IsWhitespace(s[0]) && !IsWhitespace(s[|s| - 1]))
    ensures Trim(s) == s
  {
    assert TrimStart(s) == s;
  }

  lemma TrimTwice(s: string)
    ensures Trim(Trim(s)) == Trim(s)
  {
    TrimFixed(Trim(s));
  }

  predicate AllWhitespace(s: string) { forall c <- s :: IsWhitespace(c) }

  /** A string is blank exactly if it holds nothing but white space. */
  lemma BlankExactly(s: string)
    ensures Blank(s) <==> AllWhitespace(s)
  {
    var front, back := TrimCuts(s);
    if Blank(s) { assert s == front + back; }
    if !Blank(s) { assert s[|front|] == Trim(s)[0] && s[|front|] in s; }
  }

  /** Trimming takes all the white space off both ends. */
  lemma {:induction false} TrimExactly(front: string, core: string, back: string)
    requires AllWhitespace(front) && AllWhitespace(back)
    requires core == "" || (!IsWhitespace(core[0]) && !IsWhitespace(core[|core| - 1]))
    ensures Trim(front + core + back) == core
  {
    var s := front + core + back;
    if core == "" {
      BlankExactly(s);
    } else if front != "" {
      assert s[1..] == front[1..] + core + back;
      TrimExactly(front[1..], core, back);
    } else {
      assert s == core + back && TrimStart(s) == s;
      TrimEndExactly(core, back);
    }
  }

  lemma {:induction false} TrimEndExactly(core: string, back: string)
    requires AllWhitespace(back) && core != "" && !IsWhitespace(core[|core| - 1])
    ensures TrimEnd(core + back) == core
  {
    var s := core + back;
    if back != "" {
      assert s[..|s| - 1] == core + back[..|back| - 1] && s[|s| - 1] in back;
      TrimEndExactly(core, back[..|back| - 1]);
    }
  }

  /** Trimming cuts white space off both ends and nothing else. */
  lemma TrimCuts(s: string) returns (front: string, back: string)
    ensures s == front + Trim(s) + back && AllWhitespace(front) && AllWhitespace(back)
  {
    front := TrimStartCuts(s);
    back := TrimEndCuts(TrimStart(s));
  }

  lemma {:induction false} TrimStartCuts(s: string) returns (front: string)
    ensures s == front + TrimStart(s) && AllWhitespace(front)
  {
    front := "";
    if s != "" && IsWhitespace(s[0]) {
      var rest := TrimStartCuts(s[1..]);
      front := [s[0]] + rest;
    }
  }

  lemma {:induction false} TrimEndCuts(s: string) returns (back: string)
    ensures s == TrimEnd(s) + back && AllWhitespace(back)
  {
    back := "";
    if s != "" && IsWhitespace(s[|s| - 1]) {
      var rest := TrimEndCuts(s[..|s| - 1]);
      back := rest + [s[|s| - 1]];
    }
  }

  const DIGITS := "0123456789"

  function Decimal(n: nat): (s: string)
    ensures s != ""
  {
    if n < 10 then [DIGITS[n]] else Decimal(n / 10) + [DIGITS[n % 10]]
  }

  /** Decimals consist of digits, and only zero starts with the digit 0. */
  lemma {:induction false} DecimalDigits(n: nat)
    ensures forall c <- Decimal(n) :: '0' <= c <= '9'
    ensures Decimal(n)[0] == '0' ==> n == 0 && Decimal(n) == "0"
  {
    if n >= 10 { DecimalDigits(n / 10); }
  }

  ghost function DecimalValue(s: string): int {
    if s == "" then 0
    else DecimalValue(s[..|s| - 1]) * 10 + (s[|s| - 1] as int - '0' as int)
  }

  lemma {:induction false} DecimalRoundTrip(n: nat)
    ensures DecimalValue(Decimal(n)) == n
  {
    var s := Decimal(n);
    if n < 10 {
      assert s[..0] == "";
      assert DecimalValue(s[..0]) == 0;
    } else {
      assert s[..|s| - 1] == Decimal(n / 10);
      DecimalRoundTrip(n / 10);
    }
  }

  lemma DecimalInjective(m: nat, n: nat)
    requires Decimal(m) == Decimal(n)
    ensures m == n
  {
    DecimalRoundTrip(m);
    DecimalRoundTrip(n);
  }

  /** `a < b` for Rust strings. */
  predicate Less(a: string, b: string) {
    b != "" && (a == "" || a[0] < b[0] || (a[0] == b[0] && Less(a[1..], b[1..])))
  }

  lemma {:induction false} LessIrreflexive(a: string)
    ensures !Less(a, a)
  {
    if a != "" { LessIrreflexive(a[1..]); }
  }

  lemma {:induction false} LessTransitive(a: string, b: string, c: string)
    requires Less(a, b) && Less(b, c)
    ensures Less(a, c)
  {
    if a != "" && a[0] == b[0] == c[0] {
      LessTransitive(a[1..], b[1..], c[1..]);
    }
  }

  /** A string is less than another if it is a proper prefix of it, or if at the first
      difference its character is less. */
  lemma {:induction false} LessExactly(a: string, b: string)
    ensures Less(a, b) <==> a < b || exists i :: DiffersAt(a, b, i) && a[i] < b[i]
  {
    if a != "" && b != "" && a[0] == b[0] {
      LessExactly(a[1..], b[1..]);
      assert a == [a[0]] + a[1..] && b == [b[0]] + b[1..];
      forall i ensures DiffersAt(a, b, i) <==> i > 0 && DiffersAt(a[1..], b[1..], i - 1) {
        if 0 < i <= |a| && i <= |b| {
          assert a[..i] == [a[0]] + a[1..][..i - 1] && b[..i] == [b[0]] + b[1..][..i - 1];
        }
      }
      if i :| DiffersAt(a[1..], b[1..], i) && a[1..][i] < b[1..][i] { assert DiffersAt(a, b, i + 1); }
    } else if a != "" && b != "" {
      assert DiffersAt(a, b, 0);
    }
  }

  predicate DiffersAt(a: string, b: string, i: int) {
    0 <= i < |a| && i < |b| && a[..i] == b[..i] && a[i] != b[i]
  }

  /** Positions in a list of `n` elements, in order. */
  predicate Positions(at: seq<nat>, n: nat) {
    && (forall k :: 0 <= k < |at| ==> at[k] < n)
    && (forall j, k :: 0 <= j < k < |at| ==> at[j] < at[k])
  }

  predicate NoDup<T(==)>(s: seq<T>) {
    forall i, j :: 0 <= i < j < |s| ==> s[i] != s[j]
  }

  lemma NoDupSnoc<T>(s: seq<T>, x: T)
    ensures NoDup(s + [x]) <==> NoDup(s) && x !in s
  {
    var t := s + [x];
    assert forall i :: 0 <= i < |s| ==> t[i] == s[i];
    assert t[|s|] == x;
  }
}
