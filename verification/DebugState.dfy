/** The debug log: marks and rising error edges, kept in bounded histories. */
module DebugState {
  import opened Text

  const MAX_ERRORS: nat := 80
  const MAX_LOGS: nat := 240
  const U64_MAX: nat := 0xFFFF_FFFF_FFFF_FFFF

  datatype LogEntry = LogEntry(id: string, message: string, data: Option<string>, createdAt: int)

  datatype ErrorEntry = ErrorEntry(id: string, source: string, message: string, createdAt: int)

  /** A batch of (source, message) pairs, captured at a time. */
  datatype Event = Mark(caption: string, data: Option<string>, at: int)
                 | Capture(entries: seq<(string, string)>, at: int)

  const NUL: char := '\U{0000}'

  function ErrorKey(source: string, message: string): string { source + [NUL] + message }

  /** The entries of a batch with both texts trimmed, blank ones left out. */
  function Current(entries: seq<(string, string)>): seq<(string, string)> {
    if entries == [] then []
    else
      var last := entries[|entries| - 1];
      Current(entries[..|entries| - 1]) +
      (if Blank(last.0) || Blank(last.1) then [] else [(Trim(last.0), Trim(last.1))])
  }

  function KeysOf(current: seq<(string, string)>): set<string> {
    set e | e in current :: ErrorKey(e.0, e.1)
  }

  function Bump(sequence: nat): nat { if sequence >= U64_MAX then U64_MAX else sequence + 1 }

  /** The last `n` elements. */
  function LastN<T>(s: seq<T>, n: nat): (r: seq<T>)
    ensures |r| <= n && |r| <= |s|
  {
    if |s| <= n then s else s[|s| - n..]
  }

  // ----- The bounded state -----

  datatype State = State(sequence: nat, active: set<string>, errors: seq<ErrorEntry>, logs: seq<LogEntry>)

  const START := State(0, {}, [], [])

  /** New error entries, numbered from `sequence`, for the entries whose key was not
      active. */
  function Edges(current: seq<(string, string)>, active: set<string>, sequence: nat, at: int): seq<ErrorEntry> {
    if current == [] then []
    else
      var e, earlier := current[|current| - 1], Edges(current[..|current| - 1], active, sequence, at);
      if ErrorKey(e.0, e.1) in active then earlier
      else earlier + [ErrorOf(BumpBy(sequence, |earlier| + 1), e, at)]
  }

  function ErrorOf(n: nat, e: (string, string), at: int): ErrorEntry {
    ErrorEntry("error:" + Decimal(n), e.0, e.1, at)
  }

  /** The errors and counter after a message is pushed unless it was active. */
  predicate PushedIfNew(errors: seq<ErrorEntry>, sequence: nat, active: set<string>, source: string, message: string,
                        at: int, errors': seq<ErrorEntry>, sequence': nat) {
    if ErrorKey(source, message) in active then errors' == errors && sequence' == sequence
    else sequence' == Bump(sequence) &&
         errors' == errors + [ErrorOf(sequence', (source, message), at)]
  }

  lemma {:induction false} OneMoreEdge(before: seq<ErrorEntry>, start: nat, current: seq<(string, string)>, i: nat,
                                       active: set<string>, at: int, errors: seq<ErrorEntry>, sequence: nat,
                                       errors': seq<ErrorEntry>, sequence': nat)
    requires i < |current| && start <= U64_MAX
    requires errors == before + Edges(current[..i], active, start, at)
    requires sequence == BumpBy(start, |Edges(current[..i], active, start, at)|)
    requires PushedIfNew(errors, sequence, active, current[i].0, current[i].1, at, errors', sequence')
    ensures errors' == before + Edges(current[..i + 1], active, start, at)
    ensures sequence' == BumpBy(start, |Edges(current[..i + 1], active, start, at)|)
  {
    var earlier := Edges(current[..i], active, start, at);
    EdgesSnoc(current, i, active, start, at);
    if ErrorKey(current[i].0, current[i].1) !in active {
      BumpNext(start, |earlier|);
      var e := ErrorOf(sequence', current[i], at);
      assert errors' == (before + earlier) + [e] == before + (earlier + [e]);
    }
  }

  lemma BumpNext(start: nat, n: nat)
    requires start <= U64_MAX
    ensures Bump(BumpBy(start, n)) == BumpBy(start, n + 1)
  {}

  lemma {:induction false} EdgesSnoc(current: seq<(string, string)>, i: nat, active: set<string>, start: nat, at: int)
    requires i < |current|
    ensures var e, earlier := current[i], Edges(current[..i], active, start, at);
            Edges(current[..i + 1], active, start, at) ==
            if ErrorKey(e.0, e.1) in active then earlier
            else earlier + [ErrorOf(BumpBy(start, |earlier| + 1), e, at)]
  {
    assert current[..i + 1][..i] == current[..i];
  }

  function BumpBy(sequence: nat, n: nat): nat { if sequence + n > U64_MAX then U64_MAX else sequence + n }

  function Step(s: State, e: Event): State {
    match e
    case Mark(caption, data, at) =>
      var n := Bump(s.sequence);
      s.(sequence := n, logs := LastN(s.logs + [LogEntry("log:" + Decimal(n), caption, data, at)], MAX_LOGS))
    case Capture(entries, at) =>
      var current := Current(entries);
      var edges := Edges(current, s.active, s.sequence, at);
      State(BumpBy(s.sequence, |edges|), KeysOf(current), LastN(s.errors + edges, MAX_ERRORS), s.logs)
  }

  function Run(events: seq<Event>): State {
    if events == [] then START else Step(Run(events[..|events| - 1]), events[|events| - 1])
  }

  class DebugLog {
    var sequence: nat
    var active: set<string>
    var errors: seq<ErrorEntry>
    var logs: seq<LogEntry>

    function View(): State
      reads this
    {
      State(sequence, active, errors, logs)
    }

    constructor ()
      ensures View() == START
    {
      sequence, active, errors, logs := 0, {}, [], [];
    }

    method MarkLog(caption: string, data: Option<string>, now: int)
      requires sequence <= U64_MAX
      modifies this`sequence, this`logs
      ensures View() == Step(old(View()), Mark(caption, data, now)) && sequence <= U64_MAX
    {
      sequence := if sequence < U64_MAX then sequence + 1 else sequence;
      logs := logs + [LogEntry("log:" + Decimal(sequence), caption, data, now)];
      logs := TrimFront(logs, MAX_LOGS);
    }

    /** Pushes an entry unless its error was active in the previous batch. */
    method PushIfNew(source: string, message: string, now: int)
      requires sequence <= U64_MAX
      modifies this`sequence, this`errors
      ensures PushedIfNew(old(errors), old(sequence), active, source, message, now, errors, sequence)
    {
      if ErrorKey(source, message) in active { return; }
      sequence := if sequence < U64_MAX then sequence + 1 else sequence;
      errors := errors + [ErrorEntry("error:" + Decimal(sequence), source, message, now)];
    }

    method PushEdges(current: seq<(string, string)>, now: int)
      requires sequence <= U64_MAX
      modifies this`sequence, this`errors
      ensures errors == old(errors) + Edges(current, active, old(sequence), now)
      ensures sequence == BumpBy(old(sequence), |Edges(current, active, old(sequence), now)|)
    {
      ghost var before, seen, start := errors, active, sequence;
      for i := 0 to |current|
        invariant active == seen
        invariant errors == before + Edges(current[..i], seen, start, now)
        invariant sequence == BumpBy(start, |Edges(current[..i], seen, start, now)|)
      {
        ghost var errors0, sequence0 := errors, sequence;
        PushIfNew(current[i].0, current[i].1, now);
        OneMoreEdge(before, start, current, i, seen, now, errors0, sequence0, errors, sequence);
      }
      assert current[..|current|] == current;
    }

    method CaptureErrors(entries: seq<(string, string)>, now: int)
      requires sequence <= U64_MAX
      modifies this`sequence, this`active, this`errors
      ensures View() == Step(old(View()), Capture(entries, now)) && sequence <= U64_MAX
    {
      var current := Normalize(entries);
      PushEdges(current, now);
      active := KeysOf(current);
      errors := TrimFront(errors, MAX_ERRORS);
    }
  }

  lemma LastNRest<T>(s: seq<T>, n: nat)
    requires |s| > n
    ensures LastN(s[1..], n) == LastN(s, n)
  {}

  method TrimFront<T>(values: seq<T>, limit: nat) returns (r: seq<T>)
    ensures r == LastN(values, limit)
  {
    r := values;
    while |r| > limit
      invariant LastN(r, limit) == LastN(values, limit)
      decreases |r|
    {
      LastNRest(r, limit);
      r := r[1..];
    }
  }

  method Normalize(entries: seq<(string, string)>) returns (current: seq<(string, string)>)
    ensures current == Current(entries)
  {
    current := [];
    for i := 0 to |entries|
      invariant current == Current(entries[..i])
    {
      assert entries[..i + 1][..i] == entries[..i];
      if !Blank(entries[i].0) && !Blank(entries[i].1) {
        current := current + [(Trim(entries[i].0), Trim(entries[i].1))];
      }
    }
    assert entries[..|entries|] == entries;
  }

  // ----- The unbounded histories -----

  function AllLogs(events: seq<Event>): seq<LogEntry> {
    if events == [] then []
    else
      var init, last := events[..|events| - 1], events[|events| - 1];
      AllLogs(init) + LogsOf(last, Pushed(init))
  }

  /** The entry of a mark, after so many others. */
  function LogsOf(e: Event, pushed: nat): seq<LogEntry> {
    match e
    case Mark(caption, data, at) => [LogEntry("log:" + Decimal(BumpBy(0, pushed + 1)), caption, data, at)]
    case Capture(_, _) => []
  }

  /** How many entries, of either sort, the events have pushed. */
  function Pushed(events: seq<Event>): nat {
    if events == [] then 0
    else
      var init, last := events[..|events| - 1], events[|events| - 1];
      Pushed(init) +
      match last
      case Mark(_, _, _) => 1
      case Capture(entries, _) => |Rising(Current(entries), Previous(init))|
  }

  /** The keys of the last batch captured. */
  function Previous(events: seq<Event>): set<string> {
    if events == [] then {}
    else
      match events[|events| - 1]
      case Capture(entries, _) => KeysOf(Current(entries))
      case Mark(_, _, _) => Previous(events[..|events| - 1])
  }

  /** The entries of a batch whose key was absent from the previous batch. */
  function Rising(current: seq<(string, string)>, previous: set<string>): seq<(string, string)> {
    if current == [] then []
    else
      var e, earlier := current[|current| - 1], Rising(current[..|current| - 1], previous);
      if ErrorKey(e.0, e.1) in previous then earlier else earlier + [e]
  }

  function Numbered(rising: seq<(string, string)>, pushed: nat, at: int): (r: seq<ErrorEntry>)
    ensures |r| == |rising|
  {
    if rising == [] then []
    else
      var e := rising[|rising| - 1];
      Numbered(rising[..|rising| - 1], pushed, at) +
      [ErrorOf(BumpBy(0, pushed + |rising|), e, at)]
  }

  /** Every rising edge of the events, in order, numbered along with the marks. */
  function AllErrors(events: seq<Event>): seq<ErrorEntry> {
    if events == [] then []
    else
      var init, last := events[..|events| - 1], events[|events| - 1];
      AllErrors(init) +
      match last
      case Mark(_, _, _) => []
      case Capture(entries, at) => Numbered(Rising(Current(entries), Previous(init)), Pushed(init), at)
  }

  lemma LastNAppend<T>(s: seq<T>, t: seq<T>, n: nat)
    ensures LastN(LastN(s, n) + t, n) == LastN(s + t, n)
  {}

  lemma {:induction false} EdgesAreNumbered(current: seq<(string, string)>, previous: set<string>, pushed: nat, at: int)
    ensures Edges(current, previous, BumpBy(0, pushed), at) == Numbered(Rising(current, previous), pushed, at)
  {
    if current != [] {
      var init, e := current[..|current| - 1], current[|current| - 1];
      EdgesAreNumbered(init, previous, pushed, at);
      if ErrorKey(e.0, e.1) !in previous {
        var earlier := Rising(init, previous);
        assert Rising(current, previous)[..|earlier|] == earlier;
      }
    }
  }

  /** The state holds the last 240 marks and the last 80 rising edges of the events. */
  predicate Remembers(s: State, events: seq<Event>) {
    && s.logs == LastN(AllLogs(events), MAX_LOGS)
    && s.errors == LastN(AllErrors(events), MAX_ERRORS)
    && s.active == Previous(events) && s.sequence == BumpBy(0, Pushed(events))
  }

  lemma MarkRemembered(s: State, init: seq<Event>, caption: string, data: Option<string>, at: int)
    requires Remembers(s, init)
    ensures Remembers(Step(s, Mark(caption, data, at)), init + [Mark(caption, data, at)])
  {
    var events := init + [Mark(caption, data, at)];
    assert events[..|events| - 1] == init;
    LastNAppend(AllLogs(init), [LogEntry("log:" + Decimal(BumpBy(0, Pushed(init) + 1)), caption, data, at)], MAX_LOGS);
    assert AllErrors(events) == AllErrors(init) + [];
  }

  lemma CaptureRemembered(s: State, init: seq<Event>, entries: seq<(string, string)>, at: int)
    requires Remembers(s, init)
    ensures Remembers(Step(s, Capture(entries, at)), init + [Capture(entries, at)])
  {
    var events, current := init + [Capture(entries, at)], Current(entries);
    assert events[..|events| - 1] == init;
    EdgesAreNumbered(current, Previous(init), Pushed(init), at);
    LastNAppend(AllErrors(init), Numbered(Rising(current, Previous(init)), Pushed(init), at), MAX_ERRORS);
    assert AllLogs(events) == AllLogs(init) + [];
  }

  lemma EventRemembered(s: State, init: seq<Event>, last: Event)
    requires Remembers(s, init)
    ensures Remembers(Step(s, last), init + [last])
  {
    match last
    case Mark(caption, data, at) => MarkRemembered(s, init, caption, data, at);
    case Capture(entries, at) => CaptureRemembered(s, init, entries, at);
  }

  /** After any run the logs are the last 240 marks and the errors the last 80
      rising edges. */
  lemma {:induction false} HistoriesBounded(events: seq<Event>)
    ensures Remembers(Run(events), events)
  {
    if events != [] {
      var init, last := events[..|events| - 1], events[|events| - 1];
      assert events == init + [last];
      HistoriesBounded(init);
      EventRemembered(Run(init), init, last);
    }
  }

  /** The numbers in the ids of all rising edges. */
  function ErrorNumbers(events: seq<Event>): seq<nat> {
    if events == [] then []
    else
      var init, last := events[..|events| - 1], events[|events| - 1];
      ErrorNumbers(init) +
      match last
      case Mark(_, _, _) => []
      case Capture(entries, _) => Following(Pushed(init), |Rising(Current(entries), Previous(init))|)
  }

  function Following(pushed: nat, n: nat): (r: seq<nat>)
    ensures |r| == n
    ensures forall i :: 0 <= i < n ==> r[i] == pushed + i + 1
  {
    if n == 0 then [] else Following(pushed, n - 1) + [pushed + n]
  }

  lemma {:induction false} NumberedAt(rising: seq<(string, string)>, pushed: nat, at: int, i: nat, n: nat)
    requires i < |rising| && n == pushed + i + 1
    ensures Numbered(rising, pushed, at)[i].id == "error:" + Decimal(BumpBy(0, n))
    decreases |rising|
  {
    if i < |rising| - 1 { NumberedAt(rising[..|rising| - 1], pushed, at, i, n); }
  }

  /** Before the counter saturates, error ids are numbered upwards. */
  lemma {:induction false} ErrorNumbersIncrease(events: seq<Event>)
    ensures forall n <- ErrorNumbers(events) :: n <= Pushed(events)
    ensures forall i, j :: 0 <= i < j < |ErrorNumbers(events)| ==> ErrorNumbers(events)[i] < ErrorNumbers(events)[j]
  {
    if events != [] {
      var init, last := events[..|events| - 1], events[|events| - 1];
      ErrorNumbersIncrease(init);
      if last.Capture? {
        var n := |Rising(Current(last.entries), Previous(init))|;
        IncreasingJoin(ErrorNumbers(init), Following(Pushed(init), n), Pushed(init));
      }
    }
  }

  lemma IncreasingJoin(a: seq<nat>, b: seq<nat>, m: nat)
    requires forall n <- a :: n <= m
    requires forall i, j :: 0 <= i < j < |a| ==> a[i] < a[j]
    requires forall i :: 0 <= i < |b| ==> b[i] == m + i + 1
    ensures forall n <- a + b :: n <= m + |b|
    ensures forall i, j :: 0 <= i < j < |a + b| ==> (a + b)[i] < (a + b)[j]
  {
    forall i | 0 <= i < |a| ensures a[i] <= m { assert a[i] in a; }
  }

  lemma {:induction false} ErrorIdsNumbered(events: seq<Event>)
    requires Pushed(events) <= U64_MAX
    ensures |ErrorNumbers(events)| == |AllErrors(events)|
    ensures forall i :: 0 <= i < |AllErrors(events)| ==>
              AllErrors(events)[i].id == "error:" + Decimal(ErrorNumbers(events)[i])
  {
    if events != [] {
      var init, last := events[..|events| - 1], events[|events| - 1];
      ErrorIdsNumbered(init);
      if last.Capture? {
        var rising := Rising(Current(last.entries), Previous(init));
        var a, b := Numbered(rising, Pushed(init), last.at), Following(Pushed(init), |rising|);
        assert AllErrors(events) == AllErrors(init) + a && ErrorNumbers(events) == ErrorNumbers(init) + b;
        forall i | 0 <= i < |a| ensures a[i].id == "error:" + Decimal(b[i]) {
          NumberedAt(rising, Pushed(init), last.at, i, Pushed(init) + i + 1);
        }
      } else {
        assert AllErrors(events) == AllErrors(init) + [];
        assert ErrorNumbers(events) == ErrorNumbers(init) + [];
      }
    }
  }

  /** Before the counter saturates, no two errors of a run share an id. */
  lemma {:induction false} ErrorIdsUnique(events: seq<Event>, i: nat, j: nat)
    requires Pushed(events) <= U64_MAX && i < j < |AllErrors(events)|
    ensures AllErrors(events)[i].id != AllErrors(events)[j].id
  {
    ErrorIdsNumbered(events);
    ErrorNumbersIncrease(events);
    var numbers := ErrorNumbers(events);
    var a, b := "error:" + Decimal(numbers[i]), "error:" + Decimal(numbers[j]);
    if a == b {
      assert a[6..] == Decimal(numbers[i]) && b[6..] == Decimal(numbers[j]);
      DecimalInjective(numbers[i], numbers[j]);
    }
  }

  lemma {:induction false} LogNumbered(events: seq<Event>, i: nat) returns (n: nat)
    requires Pushed(events) <= U64_MAX && i < |AllLogs(events)|
    ensures 1 <= n <= Pushed(events) && AllLogs(events)[i].id == "log:" + Decimal(n)
  {
    var init := events[..|events| - 1];
    if i < |AllLogs(init)| {
      n := LogNumbered(init, i);
      assert AllLogs(events)[i] == AllLogs(init)[i];
    } else {
      n := Pushed(init) + 1;
    }
  }

  /** Nor do two logs. */
  lemma {:induction false} LogIdsUnique(events: seq<Event>, i: nat, j: nat)
    requires Pushed(events) <= U64_MAX && i < j < |AllLogs(events)|
    ensures AllLogs(events)[i].id != AllLogs(events)[j].id
  {
    var init, all, earlier := events[..|events| - 1], AllLogs(events), AllLogs(events[..|events| - 1]);
    assert earlier <= all;
    if j < |earlier| {
      LogIdsUnique(init, i, j);
      assert all[i] == earlier[i] && all[j] == earlier[j];
    } else {
      var m := LogNumbered(init, i);
      LogIdsDiffer(m, Pushed(init) + 1);
      assert all[i] == earlier[i];
    }
  }

  lemma LogIdsDiffer(m: nat, n: nat)
    requires m != n
    ensures "log:" + Decimal(m) != "log:" + Decimal(n)
  {
    var a, b := "log:" + Decimal(m), "log:" + Decimal(n);
    assert a[4..] == Decimal(m) && b[4..] == Decimal(n);
    if a == b { DecimalInjective(m, n); }
  }

  // ----- Keys -----

  /** A key tells source and message apart when the source holds no NUL. */
  lemma {:induction false} KeysTellApart(a: string, b: string, c: string, d: string)
    requires NUL !in a && NUL !in c && ErrorKey(a, b) == ErrorKey(c, d)
    ensures a == c && b == d
  {
    var k := ErrorKey(a, b);
    assert k[|a|] == NUL && k[|c|] == NUL;
    assert forall i :: 0 <= i < |a| ==> k[i] == a[i];
    assert forall i :: 0 <= i < |c| ==> k[i] == c[i];
    assert |a| == |c|;
    assert a == k[..|a|] && c == k[..|c|] && b == k[|a| + 1..] && d == k[|c| + 1..];
  }

  /** Two sources can share a key exactly if one continues the other with a NUL. */
  lemma KeysCollideExactly(a: string, c: string)
    requires a != c
    ensures (exists b, d :: ErrorKey(a, b) == ErrorKey(c, d)) <==> a + [NUL] <= c || c + [NUL] <= a
  {
    forall b, d | ErrorKey(a, b) == ErrorKey(c, d) ensures a + [NUL] <= c || c + [NUL] <= a {
      SharedKeyContinues(a, b, c, d);
    }
    if a + [NUL] <= c {
      var d := "";
      assert ErrorKey(a, c[|a| + 1..] + [NUL]) == ErrorKey(c, d);
    }
    if c + [NUL] <= a {
      var b := "";
      assert ErrorKey(a, b) == ErrorKey(c, a[|c| + 1..] + [NUL]);
    }
  }

  lemma SharedKeyContinues(a: string, b: string, c: string, d: string)
    requires a != c && ErrorKey(a, b) == ErrorKey(c, d)
    ensures a + [NUL] <= c || c + [NUL] <= a
  {
    var k := ErrorKey(a, b);
    assert k[..|a|] == a && k[..|c|] == c && k[|a|] == NUL && k[|c|] == NUL;
    assert k[..|a| + 1] == a + [NUL] && k[..|c| + 1] == c + [NUL];
    if |a| < |c| { assert c[..|a| + 1] == k[..|a| + 1]; }
    if |c| < |a| { assert a[..|c| + 1] == k[..|c| + 1]; }
  }

  predicate Trimmed(s: string) { !Blank(s) && Trim(s) == s }

  /** An error whose key was active under other texts is not reported, although it was
      absent from the previous batch. */
  lemma SharedKeySuppresses(e: (string, string), f: (string, string), t: int, u: int)
    requires Trimmed(e.0) && Trimmed(e.1) && Trimmed(f.0) && Trimmed(f.1)
    requires e != f && ErrorKey(e.0, e.1) == ErrorKey(f.0, f.1)
    ensures Run([Capture([e], t), Capture([f], u)]).errors == Run([Capture([e], t)]).errors
    ensures f !in Current([e]) && f in Current([f])
  {
    CurrentOne(e);
    CurrentOne(f);
    var run := [Capture([e], t), Capture([f], u)];
    assert run[..1] == [Capture([e], t)] && [Capture([e], t)][..0] == [];
    assert KeysOf([e]) == {ErrorKey(e.0, e.1)};
    var s := Run([Capture([e], t)]);
    assert Current([f])[..0] == [];
    assert Edges(Current([f]), s.active, s.sequence, u) == [];
    assert s.errors + [] == s.errors;
  }

  lemma CurrentOne(e: (string, string))
    requires Trimmed(e.0) && Trimmed(e.1)
    ensures Current([e]) == [e]
  {
    assert [e][..0] == [];
  }

  /** Such errors exist. */
  lemma SharedKeyExists() returns (e: (string, string), f: (string, string))
    ensures Trimmed(e.0) && Trimmed(e.1) && Trimmed(f.0) && Trimmed(f.1)
    ensures e != f && ErrorKey(e.0, e.1) == ErrorKey(f.0, f.1)
  {
    e, f := (['a', NUL, 'b'], "c"), ("a", ['b', NUL, 'c']);
    assert ErrorKey(e.0, e.1) == ['a', NUL, 'b', NUL, 'c'] == ErrorKey(f.0, f.1);
    assert |e.0| != |f.0|;
    TrimFixed(e.0);
    TrimFixed(e.1);
    TrimFixed(f.0);
    TrimFixed(f.1);
  }
}
