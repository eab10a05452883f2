/** What each event adds to the unbounded histories of the debug log, and how much of
    them the log keeps. */
module DebugCaptures {
  import opened Text
  import opened DebugState

  // ----- The entries of a batch that count -----

  /** A batch is read entry by entry. */
  lemma {:induction false} CurrentJoin(a: seq<(string, string)>, b: seq<(string, string)>)
    ensures Current(a + b) == Current(a) + Current(b)
  {
    if b == [] {
      assert a + b == a && Current(a) + [] == Current(a);
    } else {
      var init, last := b[..|b| - 1], b[|b| - 1];
      assert (a + b)[..|a + b| - 1] == a + init && (a + b)[|a + b| - 1] == last;
      CurrentJoin(a, init);
    }
  }

  /** An entry counts, trimmed, unless one of its texts is blank. */
  lemma CurrentSingle(e: (string, string))
    ensures Current([e]) ==
            if AllWhitespace(e.0) || AllWhitespace(e.1) then [] else [(Trim(e.0), Trim(e.1))]
  {
    assert [e][..0] == [];
    BlankExactly(e.0);
    BlankExactly(e.1);
  }

  predicate Counts(e: (string, string)) { !AllWhitespace(e.0) && !AllWhitespace(e.1) }

  lemma CurrentSnoc(init: seq<(string, string)>, last: (string, string))
    ensures Current(init + [last]) ==
            Current(init) + if Counts(last) then [(Trim(last.0), Trim(last.1))] else []
  {
    CurrentJoin(init, [last]);
    CurrentSingle(last);
  }

  lemma {:induction false} InCurrent(batch: seq<(string, string)>, x: (string, string))
    ensures x in Current(batch) <==> exists e <- batch :: Counts(e) && x == (Trim(e.0), Trim(e.1))
  {
    if batch != [] {
      var init, last := batch[..|batch| - 1], batch[|batch| - 1];
      assert batch == init + [last];
      InCurrent(init, x);
      CurrentSnoc(init, last);
      assert forall e :: e in batch <==> e in init || e == last;
    }
  }

  predicate NoCapture(events: seq<Event>) { forall e <- events :: e.Mark? }

  /** The active keys are those of the last batch, whatever marks follow it, and none
      before the first. */
  lemma {:induction false} PreviousExactly(events: seq<Event>, batch: seq<(string, string)>, at: int,
                                           marks: seq<Event>, key: string)
    requires NoCapture(marks)
    ensures Previous(marks) == {}
    ensures key in Previous(events + [Capture(batch, at)] + marks) <==>
            exists e <- batch :: Counts(e) && key == Trim(e.0) + ['\U{0000}'] + Trim(e.1)
  {
    var all := events + [Capture(batch, at)] + marks;
    if marks == [] {
      assert all[|all| - 1] == Capture(batch, at);
      forall x ensures x in Current(batch) <==> exists e <- batch :: Counts(e) && x == (Trim(e.0), Trim(e.1)) {
        InCurrent(batch, x);
      }
      forall e <- batch | Counts(e) ensures ErrorKey(Trim(e.0), Trim(e.1)) in KeysOf(Current(batch)) {
        assert (Trim(e.0), Trim(e.1)) in Current(batch);
      }
    } else {
      var init, last := marks[..|marks| - 1], marks[|marks| - 1];
      assert all == (events + [Capture(batch, at)] + init) + [last] && last in marks;
      assert all[..|all| - 1] == events + [Capture(batch, at)] + init;
      PreviousExactly(events, batch, at, init, key);
    }
  }

  // ----- What an event adds -----

  /** The entry counts and its key is not active. */
  predicate Rises(e: (string, string), previous: set<string>) {
    Counts(e) && Trim(e.0) + ['\U{0000}'] + Trim(e.1) !in previous
  }

  function BothTrimmed(e: (string, string)): (string, string) { (Trim(e.0), Trim(e.1)) }

  /** The texts are those of the entries at these positions: the ones that count and
      whose key is not active. */
  ghost predicate FoundAt(batch: seq<(string, string)>, previous: set<string>, rising: seq<(string, string)>,
                          found: seq<nat>) {
    && Positions(found, |batch|) && |found| == |rising|
    && (forall i :: 0 <= i < |batch| ==>
          (i in found <==> Rises(batch[i], previous)))
    && (forall k :: 0 <= k < |found| ==> rising[k] == BothTrimmed(batch[found[k]]))
  }

  lemma {:induction false} OneMoreFound(init: seq<(string, string)>, last: (string, string), previous: set<string>,
                     rising: seq<(string, string)>, found: seq<nat>)
    requires FoundAt(init, previous, rising, found)
    ensures if Rises(last, previous)
            then FoundAt(init + [last], previous, rising + [BothTrimmed(last)], found + [|init|])
            else FoundAt(init + [last], previous, rising, found)
  {
    var batch := init + [last];
    assert forall i :: 0 <= i < |init| ==> batch[i] == init[i];
    assert batch[|init|] == last;
    assert forall k :: 0 <= k < |found| ==> found[k] in found;
  }

  lemma RisingSnoc(current: seq<(string, string)>, e: (string, string), previous: set<string>)
    ensures Rising(current + [e], previous) ==
            if ErrorKey(e.0, e.1) in previous then Rising(current, previous) else Rising(current, previous) + [e]
  {
    assert (current + [e])[..|current|] == current;
  }

  lemma {:induction false} ReportedPositions(batch: seq<(string, string)>, previous: set<string>)
    returns (found: seq<nat>)
    ensures FoundAt(batch, previous, Rising(Current(batch), previous), found)
  {
    found := [];
    if batch != [] {
      var n := |batch| - 1;
      var init, last := batch[..n], batch[n];
      assert batch == init + [last];
      found := ReportedPositions(init, previous);
      OneMoreFound(init, last, previous, Rising(Current(init), previous), found);
      CurrentSnoc(init, last);
      if Counts(last) {
        RisingSnoc(Current(init), (Trim(last.0), Trim(last.1)), previous);
        if ErrorKey(Trim(last.0), Trim(last.1)) !in previous { found := found + [n]; }
      } else {
        assert Current(init) + [] == Current(init);
      }
    }
  }

  /** The error with these texts and this number. */
  predicate NumberedAs(e: ErrorEntry, texts: (string, string), n: nat, at: int) {
    e.id == "error:" + Decimal(BumpBy(0, n)) && e.source == texts.0 && e.message == texts.1 && e.createdAt == at
  }

  lemma {:induction false} NumberedIs(rising: seq<(string, string)>, pushed: nat, at: int, k: nat)
    requires k < |rising|
    ensures NumberedAs(Numbered(rising, pushed, at)[k], rising[k], pushed + k + 1, at)
  {
    if k < |rising| - 1 { NumberedIs(rising[..|rising| - 1], pushed, at, k); }
  }

  lemma {:induction false} AfterCapture(init: seq<Event>, batch: seq<(string, string)>, at: int)
    ensures var events, rising := init + [Capture(batch, at)], Rising(Current(batch), Previous(init));
            && AllErrors(events) == AllErrors(init) + Numbered(rising, Pushed(init), at)
            && Pushed(events) == Pushed(init) + |rising|
  {
    var events := init + [Capture(batch, at)];
    assert events[..|events| - 1] == init;
  }

  lemma {:induction false} LogsSnoc(init: seq<Event>, e: Event)
    ensures AllLogs(init + [e]) == AllLogs(init) + LogsOf(e, Pushed(init))
  {
    var events := init + [e];
    assert events[..|events| - 1] == init;
  }

  /** The entries found in the batch were added, trimmed and with the next numbers. */
  predicate Reported(before: seq<ErrorEntry>, after: seq<ErrorEntry>, batch: seq<(string, string)>, found: seq<nat>,
                     pushed: nat, at: int)
    requires Positions(found, |batch|)
  {
    && before <= after && |after| == |before| + |found|
    && forall k :: 0 <= k < |found| ==>
         NumberedAs(after[|before| + k], (Trim(batch[found[k]].0), Trim(batch[found[k]].1)), pushed + k + 1, at)
  }

  /** A capture reports, in order, exactly the entries with two texts that are not blank
      and whose key was not active, trimmed and with the next numbers. */
  lemma {:induction false} CaptureReports(init: seq<Event>, batch: seq<(string, string)>, at: int)
    returns (found: seq<nat>)
    ensures Positions(found, |batch|)
    ensures forall i :: 0 <= i < |batch| ==>
              (i in found <==>
                 && !AllWhitespace(batch[i].0) && !AllWhitespace(batch[i].1)
                 && Trim(batch[i].0) + ['\U{0000}'] + Trim(batch[i].1) !in Previous(init))
    ensures Reported(AllErrors(init), AllErrors(init + [Capture(batch, at)]), batch, found, Pushed(init), at)
    ensures Pushed(init + [Capture(batch, at)]) == Pushed(init) + |found|
  {
    found := ReportedPositions(batch, Previous(init));
    var rising := Rising(Current(batch), Previous(init));
    AfterCapture(init, batch, at);
    ErrorsReported(AllErrors(init), rising, Pushed(init), at, batch, found);
  }

  /** It adds no log entry. */
  lemma {:induction false} CaptureKeepsLogs(init: seq<Event>, batch: seq<(string, string)>, at: int)
    ensures AllLogs(init + [Capture(batch, at)]) == AllLogs(init)
  {
    LogsSnoc(init, Capture(batch, at));
    assert AllLogs(init) + [] == AllLogs(init);
  }

  lemma {:induction false} ErrorsReported(before: seq<ErrorEntry>, rising: seq<(string, string)>, pushed: nat, at: int,
                                          batch: seq<(string, string)>, found: seq<nat>)
    requires |rising| == |found| && Positions(found, |batch|)
    requires forall k :: 0 <= k < |found| ==> rising[k] == (Trim(batch[found[k]].0), Trim(batch[found[k]].1))
    ensures Reported(before, before + Numbered(rising, pushed, at), batch, found, pushed, at)
  {
    forall k | 0 <= k < |rising| { NumberedIs(rising, pushed, at, k); }
    var added := Numbered(rising, pushed, at);
    AddedAt(before, added, before + added, rising, found, batch, pushed, at);
  }

  lemma AddedAt(before: seq<ErrorEntry>, added: seq<ErrorEntry>, after: seq<ErrorEntry>, rising: seq<(string, string)>,
                found: seq<nat>, batch: seq<(string, string)>, pushed: nat, at: int)
    requires after == before + added && |added| == |rising| == |found| && Positions(found, |batch|)
    requires forall k :: 0 <= k < |added| ==> NumberedAs(added[k], rising[k], pushed + k + 1, at)
    requires forall k :: 0 <= k < |found| ==> rising[k] == (Trim(batch[found[k]].0), Trim(batch[found[k]].1))
    ensures Reported(before, after, batch, found, pushed, at)
  {}

  /** A mark adds one log entry with its texts and the next number, and no error. */
  lemma {:induction false} MarkReports(init: seq<Event>, caption: string, data: Option<string>, at: int)
    ensures AllLogs(init + [Mark(caption, data, at)]) ==
            AllLogs(init) + [LogEntry("log:" + Decimal(BumpBy(0, Pushed(init) + 1)), caption, data, at)]
    ensures Pushed(init + [Mark(caption, data, at)]) == Pushed(init) + 1
    ensures AllErrors(init + [Mark(caption, data, at)]) == AllErrors(init)
  {
    var events := init + [Mark(caption, data, at)];
    LogsSnoc(init, Mark(caption, data, at));
    assert events[..|events| - 1] == init;
    assert AllErrors(init) + [] == AllErrors(init);
  }

  /** Numbers count up to the largest 64-bit number and stay there. */
  lemma NumbersSaturate(n: nat)
    ensures BumpBy(0, n) == if n <= 0xFFFF_FFFF_FFFF_FFFF then n else 0xFFFF_FFFF_FFFF_FFFF
  {}

  /** The end of a history, no longer than the limit and complete if it is shorter. */
  predicate EndOf<T(==)>(kept: seq<T>, all: seq<T>, limit: nat) {
    |kept| <= |all| && kept == all[|all| - |kept|..] && |kept| == if |all| <= limit then |all| else limit
  }

  /** The log keeps the last 80 errors and the last 240 marks. */
  lemma {:induction false} KeptExactly(events: seq<Event>)
    ensures EndOf(Run(events).errors, AllErrors(events), 80) && EndOf(Run(events).logs, AllLogs(events), 240)
  {
    HistoriesBounded(events);
  }
}
