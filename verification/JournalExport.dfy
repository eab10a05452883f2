/** The journal export: publishers that number and send records, a writer thread
    that appends them to a file, and the drop that closes and joins. */
module JournalExport {
  type Publisher = nat

  datatype Record = Record(sequence: nat, publisher: Publisher)

  /** A publisher between numbering a record, sending it and reporting a refusal. */
  datatype PublisherState = Idle | Numbered(record: Record) | Refused

  /** The writer thread: waiting for a record, writing one, flushing after its
      loop ended, or ended, its receiver dropped. */
  datatype Writer = Receiving | Writing(record: Record) | Flushing | Ended

  datatype Owner = Holding | Joining | Dropped

  /** `live`: the sink still holds the sender of the writer's channel. `accepted`
      lists the records whose send succeeded; `torn` marks a file that ends in
      part of a record. */
  datatype State = State(nextSequence: nat, publishers: map<Publisher, PublisherState>, live: bool,
                         queue: seq<Record>, writer: Writer, owner: Owner, reported: bool, reports: nat,
                         accepted: seq<Record>, file: seq<Record>, torn: bool, ioFailed: bool)

  const INIT := State(1, map[], true, [], Receiving, Holding, false, 0, [], [], false, false)

  /** How much of a record a failed write leaves in the file. */
  datatype Extent = Nothing | Part | Whole

  datatype Step =
    | Append(p: Publisher)          // under the journal's lock: take the next sequence number
    | Send(p: Publisher)            // under the sink's lock: send, or find the channel dead
    | Report(p: Publisher)          // swap the flag; print if it was clear
    | Receive | WriteDone | WriteFailed(left: Extent) | Disconnect | Finish
    | Close | Join

  function StateAt(s: State, p: Publisher): PublisherState {
    if p in s.publishers then s.publishers[p] else Idle
  }

  predicate Enabled(s: State, step: Step) {
    match step
    case Append(p) => StateAt(s, p).Idle?
    case Send(p) => StateAt(s, p).Numbered?
    case Report(p) => StateAt(s, p).Refused?
    case Receive => s.writer.Receiving? && s.queue != []
    case WriteDone => s.writer.Writing?
    case WriteFailed(_) => s.writer.Writing?
    case Disconnect => s.writer.Receiving? && s.queue == [] && !s.live
    case Finish => s.writer.Flushing?
    case Close => s.owner.Holding?
    case Join => s.owner.Joining? && s.writer.Ended?
  }

  function Next(s: State, step: Step): State
    requires Enabled(s, step)
  {
    match step
    case Append(p) =>
      s.(publishers := s.publishers[p := Numbered(Record(s.nextSequence, p))], nextSequence := s.nextSequence + 1)
    case Send(p) =>
      var r := StateAt(s, p).record;
      if s.live && !s.writer.Ended? then
        s.(publishers := s.publishers[p := Idle], queue := s.queue + [r], accepted := s.accepted + [r])
      else s.(publishers := s.publishers[p := Refused])
    case Report(p) =>
      s.(publishers := s.publishers[p := Idle], reported := true,
         reports := if s.reported then s.reports else s.reports + 1)
    case Receive => s.(writer := Writing(s.queue[0]), queue := s.queue[1..])
    case WriteDone => s.(writer := Receiving, file := s.file + [s.writer.record])
    case WriteFailed(left) =>
      s.(writer := Flushing, ioFailed := true, torn := left.Part?,
         file := if left.Whole? then s.file + [s.writer.record] else s.file)
    case Disconnect => s.(writer := Flushing)
    case Finish => s.(writer := Ended)
    case Close => s.(owner := Joining, live := false)
    case Join => s.(owner := Dropped)
  }

  predicate CanRun(s: State, steps: seq<Step>)
    decreases |steps|
  {
    steps == [] || (Enabled(s, steps[0]) && CanRun(Next(s, steps[0]), steps[1..]))
  }

  function Run(s: State, steps: seq<Step>): State
    requires CanRun(s, steps)
    decreases |steps|
  {
    if steps == [] then s else Run(Next(s, steps[0]), steps[1..])
  }

  // ----- Safety -----

  /** Where every accepted record is. */
  predicate Placed(s: State) {
    match s.writer
    case Receiving => s.accepted == s.file + s.queue && !s.torn && !s.ioFailed
    case Writing(r) => s.accepted == s.file + [r] + s.queue && !s.torn && !s.ioFailed
    case _ =>
      && s.file <= s.accepted
      && (s.torn ==> |s.file| < |s.accepted|)
      && (!s.ioFailed ==> !s.live && s.file == s.accepted && !s.torn)
  }

  predicate Consistent(s: State) {
    && Placed(s)
    && s.reports == (if s.reported then 1 else 0)
    && (s.live <==> s.owner.Holding?)
    && (s.owner.Dropped? ==> s.writer.Ended?)
  }

  lemma StepConsistent(s: State, step: Step)
    requires Consistent(s) && Enabled(s, step)
    ensures Consistent(Next(s, step))
  {
    match step {
      case Send(p) =>
        var r := StateAt(s, p).record;
        match s.writer {
          case Receiving => assert s.file + s.queue + [r] == s.file + (s.queue + [r]);
          case Writing(w) => assert s.file + [w] + s.queue + [r] == s.file + [w] + (s.queue + [r]);
          case _ =>
        }
      case Receive => assert s.file + s.queue == s.file + [s.queue[0]] + s.queue[1..];
      case WriteDone =>
      case WriteFailed(_) =>
        assert s.file + [s.writer.record] + s.queue == s.file + ([s.writer.record] + s.queue);
      case Disconnect => assert s.file + s.queue == s.file;
      case _ =>
    }
  }

  lemma {:induction false} RunConsistent(s: State, steps: seq<Step>)
    requires Consistent(s) && CanRun(s, steps)
    ensures Consistent(Run(s, steps))
    decreases |steps|
  {
    if steps != [] {
      StepConsistent(s, steps[0]);
      RunConsistent(Next(s, steps[0]), steps[1..]);
    }
  }

  /** In every interleaving the file is a prefix of the accepted records in send
      order, a refusal is reported at most once, and once the drop has returned
      without a write failure the file is everything that was accepted. */
  lemma ExportIsFaithful(steps: seq<Step>)
    requires CanRun(INIT, steps)
    ensures var s := Run(INIT, steps);
            && s.file <= s.accepted && s.reports <= 1
            && (s.owner.Dropped? && !s.ioFailed ==> s.file == s.accepted && !s.torn)
  {
    RunConsistent(INIT, steps);
    var s := Run(INIT, steps);
    if s.writer.Writing? { assert s.file + [s.writer.record] + s.queue == s.file + ([s.writer.record] + s.queue); }
  }

  // ----- Order -----

  /** A record that is numbered but not sent yet comes after everything its
      publisher has sent, and is not among the accepted records. */
  predicate Unsent(r: Record, accepted: seq<Record>) {
    forall i :: 0 <= i < |accepted| ==>
      accepted[i].sequence != r.sequence &&
      (accepted[i].publisher == r.publisher ==> accepted[i].sequence < r.sequence)
  }

  predicate PendingOrdered(s: State) {
    && (forall p <- s.publishers :: s.publishers[p].Numbered? ==>
          var r := s.publishers[p].record;
          r.publisher == p && r.sequence < s.nextSequence && Unsent(r, s.accepted))
    && (forall p, q :: p in s.publishers && q in s.publishers && p != q ==>
          (s.publishers[p].Numbered? && s.publishers[q].Numbered? ==>
             s.publishers[p].record.sequence != s.publishers[q].record.sequence))
  }

  predicate AcceptedOrdered(s: State) {
    && (forall i :: 0 <= i < |s.accepted| ==> s.accepted[i].sequence < s.nextSequence)
    && (forall i, j :: 0 <= i < j < |s.accepted| ==>
          s.accepted[i].sequence != s.accepted[j].sequence &&
          (s.accepted[i].publisher == s.accepted[j].publisher ==>
             s.accepted[i].sequence < s.accepted[j].sequence))
  }

  /** Every publisher's accepted records are in the order it numbered them, and no
      record was accepted twice. */
  predicate Ordered(s: State) { PendingOrdered(s) && AcceptedOrdered(s) }

  lemma AppendOrdered(s: State, p: Publisher)
    requires Ordered(s) && Enabled(s, Append(p))
    ensures Ordered(Next(s, Append(p)))
  {
    assert Unsent(Record(s.nextSequence, p), s.accepted);
  }

  lemma SendKeepsPending(s: State, p: Publisher)
    requires Ordered(s) && Enabled(s, Send(p)) && s.live && !s.writer.Ended?
    ensures PendingOrdered(Next(s, Send(p)))
  {
    var r, s' := StateAt(s, p).record, Next(s, Send(p));
    forall q | q in s'.publishers && s'.publishers[q].Numbered?
      ensures Unsent(s'.publishers[q].record, s'.accepted)
    {
      StillUnsent(s.publishers[q].record, s.accepted, r);
    }
  }

  lemma StillUnsent(r: Record, accepted: seq<Record>, sent: Record)
    requires Unsent(r, accepted) && r.sequence != sent.sequence && r.publisher != sent.publisher
    ensures Unsent(r, accepted + [sent])
  {}

  lemma SendKeepsAccepted(s: State, p: Publisher)
    requires Ordered(s) && Enabled(s, Send(p)) && s.live && !s.writer.Ended?
    ensures AcceptedOrdered(Next(s, Send(p)))
  {
    assert Unsent(StateAt(s, p).record, s.accepted);
  }

  lemma SendOrdered(s: State, p: Publisher)
    requires Ordered(s) && Enabled(s, Send(p))
    ensures Ordered(Next(s, Send(p)))
  {
    if s.live && !s.writer.Ended? {
      SendKeepsPending(s, p);
      SendKeepsAccepted(s, p);
    }
  }

  lemma StepOrdered(s: State, step: Step)
    requires Ordered(s) && Enabled(s, step)
    ensures Ordered(Next(s, step))
  {
    match step {
      case Append(p) => AppendOrdered(s, p);
      case Send(p) => SendOrdered(s, p);
      case _ =>
    }
  }

  lemma {:induction false} RunOrdered(s: State, steps: seq<Step>)
    requires Ordered(s) && CanRun(s, steps)
    ensures Ordered(Run(s, steps))
    decreases |steps|
  {
    if steps != [] {
      StepOrdered(s, steps[0]);
      RunOrdered(Next(s, steps[0]), steps[1..]);
    }
  }

  /** In every interleaving each publisher's records reach the file in the order
      it numbered them, each at most once. */
  lemma PublisherOrderKept(steps: seq<Step>, i: nat, j: nat)
    requires CanRun(INIT, steps) && i < j < |Run(INIT, steps).file|
    ensures var f := Run(INIT, steps).file;
            f[i] != f[j] && (f[i].publisher == f[j].publisher ==> f[i].sequence < f[j].sequence)
  {
    ExportIsFaithful(steps);
    RunOrdered(INIT, steps);
    var s := Run(INIT, steps);
    assert s.file[i] == s.accepted[i] && s.file[j] == s.accepted[j];
  }

  predicate Increasing(file: seq<Record>) {
    forall i, j :: 0 <= i < j < |file| ==> file[i].sequence < file[j].sequence
  }

  /** Two publishers take their numbers in one order and send in the other. */
  function Crossing(p: Publisher, q: Publisher): seq<Step> {
    [Append(p)] + ([Append(q)] + ([Send(q)] + ([Send(p)] + DRAIN_TWO)))
  }

  /** Across any two publishers the file need not follow the sequence numbers: a number
      is taken under one lock and sent under another. */
  lemma OrderCanInvert(p: Publisher, q: Publisher)
    requires p != q
    ensures CanRun(INIT, Crossing(p, q)) && OnlyBy(Crossing(p, q), {p, q})
    ensures Run(INIT, Crossing(p, q)).file == [Record(2, q), Record(1, p)]
  {
    CrossingRuns(p, q);
  }

  lemma CrossingRuns(p: Publisher, q: Publisher)
    requires p != q
    ensures CanRun(INIT, Crossing(p, q)) && Run(INIT, Crossing(p, q)).file == [Record(2, q), Record(1, p)]
  {
    var s1 := Next(INIT, Append(p));
    var s2 := Next(s1, Append(q));
    var s3 := Next(s2, Send(q));
    var s4 := Next(s3, Send(p));
    assert s4.queue == [Record(2, q), Record(1, p)] && s4.file == [] && s4.writer.Receiving?;
    DrainTwo(s4);
    RunLast(s3, Send(p), DRAIN_TWO);
    RunLast(s2, Send(q), [Send(p)] + DRAIN_TWO);
    RunLast(s1, Append(q), [Send(q)] + ([Send(p)] + DRAIN_TWO));
    RunLast(INIT, Append(p), [Append(q)] + ([Send(q)] + ([Send(p)] + DRAIN_TWO)));
  }

  const DRAIN_TWO := [Receive, WriteDone, Receive, WriteDone]

  lemma DrainTwo(s: State)
    requires s.writer.Receiving? && |s.queue| == 2
    ensures CanRun(s, DRAIN_TWO) && Run(s, DRAIN_TWO).file == s.file + s.queue
  {
    var a := Next(s, Receive);
    var b := Next(a, WriteDone);
    var c := Next(b, Receive);
    var d := Next(c, WriteDone);
    assert d.file == s.file + s.queue;
    RunLast(c, WriteDone, []);
    RunLast(b, Receive, [WriteDone]);
    RunLast(a, WriteDone, [Receive, WriteDone]);
    RunLast(s, Receive, [WriteDone, Receive, WriteDone]);
    assert DRAIN_TWO == [Receive] + [WriteDone, Receive, WriteDone];
  }

  /** Only these publishers take steps. */
  predicate OnlyBy(steps: seq<Step>, ps: set<Publisher>) { forall step <- steps :: StepBy(step, ps) }

  predicate StepBy(step: Step, ps: set<Publisher>) {
    match step
    case Append(q) => q in ps
    case Send(q) => q in ps
    case Report(q) => q in ps
    case _ => true
  }

  predicate Within(s: State, ps: set<Publisher>) {
    && (forall q <- s.publishers :: q in ps && (s.publishers[q].Numbered? ==> s.publishers[q].record.publisher == q))
    && (forall r <- s.accepted :: r.publisher in ps)
  }

  lemma {:induction false} RunWithin(s: State, steps: seq<Step>, ps: set<Publisher>)
    requires Within(s, ps) && CanRun(s, steps) && OnlyBy(steps, ps)
    ensures Within(Run(s, steps), ps)
    decreases |steps|
  {
    if steps != [] {
      assert StepBy(steps[0], ps);
      StepWithin(s, steps[0], ps);
      RunWithin(Next(s, steps[0]), steps[1..], ps);
    }
  }

  lemma StepWithin(s: State, step: Step, ps: set<Publisher>)
    requires Within(s, ps) && Enabled(s, step) && StepBy(step, ps)
    ensures Within(Next(s, step), ps)
  {}

  ghost predicate AlwaysIncreasing(ps: set<Publisher>) {
    forall steps :: CanRun(INIT, steps) && OnlyBy(steps, ps) ==> Increasing(Run(INIT, steps).file)
  }

  /** All runs by some publishers export in sequence order exactly if there is at most
      one of them. */
  lemma OrderedExactly(ps: set<Publisher>)
    ensures AlwaysIncreasing(ps) <==> forall p <- ps, q <- ps :: p == q
  {
    if p, q :| p in ps && q in ps && p != q {
      var steps := Crossing(p, q);
      OrderCanInvert(p, q);
      assert forall step <- steps :: StepBy(step, {p, q}) ==> StepBy(step, ps);
      var file := Run(INIT, steps).file;
      assert file[0].sequence > file[1].sequence;
    } else {
      forall steps | CanRun(INIT, steps) && OnlyBy(steps, ps) ensures Increasing(Run(INIT, steps).file) {
        SoloIsIncreasing(steps, ps);
      }
    }
  }

  lemma SoloIsIncreasing(steps: seq<Step>, ps: set<Publisher>)
    requires CanRun(INIT, steps) && OnlyBy(steps, ps) && forall p <- ps, q <- ps :: p == q
    ensures Increasing(Run(INIT, steps).file)
  {
    RunWithin(INIT, steps, ps);
    ExportIsFaithful(steps);
    var s := Run(INIT, steps);
    forall i, j | 0 <= i < j < |s.file| ensures s.file[i].sequence < s.file[j].sequence {
      assert s.file[i] == s.accepted[i] && s.file[j] == s.accepted[j];
      PublisherOrderKept(steps, i, j);
    }
  }

  lemma RunLast(s: State, step: Step, rest: seq<Step>)
    requires Enabled(s, step) && CanRun(Next(s, step), rest)
    ensures CanRun(s, [step] + rest) && Run(s, [step] + rest) == Run(Next(s, step), rest)
  {
    assert ([step] + rest)[1..] == rest;
  }

  predicate By(step: Step, p: Publisher) {
    match step
    case Append(q) => q == p
    case Send(q) => q == p
    case Report(q) => q == p
    case _ => true
  }

  /** One publisher's records are accepted in sequence, without gaps, for as long
      as none was refused. */
  predicate Sequential(s: State, p: Publisher) {
    && (forall q <- s.publishers :: q == p)
    && (!s.reported && !StateAt(s, p).Refused? ==> Counted(s.accepted) && NextFollows(s, StateAt(s, p)))
  }

  predicate Counted(records: seq<Record>) {
    forall i :: 0 <= i < |records| ==> records[i].sequence == i + 1
  }

  predicate NextFollows(s: State, p: PublisherState) {
    if p.Numbered? then p.record.sequence == |s.accepted| + 1 && s.nextSequence == |s.accepted| + 2
    else s.nextSequence == |s.accepted| + 1
  }

  lemma {:induction false} RunSequential(s: State, steps: seq<Step>, p: Publisher)
    requires Sequential(s, p) && CanRun(s, steps) && forall i :: 0 <= i < |steps| ==> By(steps[i], p)
    ensures Sequential(Run(s, steps), p)
    decreases |steps|
  {
    if steps != [] {
      assert By(steps[0], p);
      RunSequential(Next(s, steps[0]), steps[1..], p);
    }
  }

  /** With a single publisher the exported file is numbered 1, 2, 3, and so on,
      unless a record was refused. */
  lemma SoloExportIsSequential(steps: seq<Step>, p: Publisher)
    requires CanRun(INIT, steps) && forall i :: 0 <= i < |steps| ==> By(steps[i], p)
    requires !Run(INIT, steps).reported && !StateAt(Run(INIT, steps), p).Refused?
    ensures var s := Run(INIT, steps);
            Counted(s.file)
  {
    RunSequential(INIT, steps, p);
    ExportIsFaithful(steps);
    var s := Run(INIT, steps);
    assert forall i :: 0 <= i < |s.file| ==> s.file[i] == s.accepted[i];
  }

  // ----- Nothing is refused without a reason -----

  /** The record with this number was accepted or is still to be sent. */
  predicate Accounted(s: State, k: nat) {
    || (exists r <- s.accepted :: r.sequence == k)
    || (exists p <- s.publishers :: s.publishers[p].Numbered? && s.publishers[p].record.sequence == k)
  }

  /** The export is running and has refused nothing. */
  ghost predicate Undisturbed(s: State) {
    && s.live && (s.writer.Receiving? || s.writer.Writing?) && s.owner.Holding? && !s.reported
    && (forall p <- s.publishers :: !s.publishers[p].Refused?)
    && forall k :: 1 <= k < s.nextSequence ==> Accounted(s, k)
  }

  predicate Disturbs(step: Step) { step.Close? || step.WriteFailed? }

  lemma StepUndisturbed(s: State, step: Step)
    requires Undisturbed(s) && Enabled(s, step) && !Disturbs(step)
    ensures Undisturbed(Next(s, step))
  {
    var next := Next(s, step);
    forall k | 1 <= k < next.nextSequence ensures Accounted(next, k) {
      if k < s.nextSequence {
        assert Accounted(s, k);
        if r :| r in s.accepted && r.sequence == k {
          assert r in next.accepted;
        } else {
          var p :| p in s.publishers && s.publishers[p].Numbered? && s.publishers[p].record.sequence == k;
          if step == Send(p) {
            assert next.accepted[|s.accepted|] == s.publishers[p].record;
          } else {
            assert p in next.publishers && next.publishers[p] == s.publishers[p];
          }
        }
      } else {
        assert step.Append? && step.p in next.publishers;
      }
    }
  }

  lemma {:induction false} RunUndisturbed(s: State, steps: seq<Step>)
    requires Undisturbed(s) && CanRun(s, steps) && forall i :: 0 <= i < |steps| ==> !Disturbs(steps[i])
    ensures Undisturbed(Run(s, steps))
    decreases |steps|
  {
    if steps != [] {
      StepUndisturbed(s, steps[0]);
      RunUndisturbed(Next(s, steps[0]), steps[1..]);
    }
  }

  /** Until the export is closed or a write fails, no record is refused: every number
      taken belongs to an accepted record or to one about to be sent. */
  lemma NothingRefused(steps: seq<Step>)
    requires CanRun(INIT, steps) && forall step <- steps :: !step.Close? && !step.WriteFailed?
    ensures var s := Run(INIT, steps);
            && !s.reported && (forall p <- s.publishers :: !s.publishers[p].Refused?)
            && forall k :: 1 <= k < s.nextSequence ==> Accounted(s, k)
  {
    RunUndisturbed(INIT, steps);
  }

  // ----- The drop returns -----

  /** Steps the writer and the joining owner still have to take. */
  function Left(s: State): nat {
    (if s.owner.Dropped? then 0 else 1) +
    match s.writer
    case Receiving => 2 * |s.queue| + 2
    case Writing(_) => 2 * |s.queue| + 3
    case Flushing => 1
    case Ended => 0
  }

  predicate PublisherStep(step: Step) { step.Append? || step.Send? || step.Report? }

  /** Once the channel is closed, publishers cannot delay the drop and every other
      step brings it closer. */
  lemma StepsRunOut(s: State, step: Step)
    requires Consistent(s) && !s.live && Enabled(s, step)
    ensures !Next(s, step).live
    ensures if PublisherStep(step) then Left(Next(s, step)) == Left(s) else Left(Next(s, step)) < Left(s)
  {}

  /** While the owner waits to join, some step of the writer or the join itself is
      enabled: the drop never deadlocks. */
  lemma JoinNeverStuck(s: State) returns (step: Step)
    requires Consistent(s) && s.owner.Joining?
    ensures Enabled(s, step) && !PublisherStep(step) && !step.WriteFailed?
  {
    step := match s.writer
      case Receiving => if s.queue == [] then Disconnect else Receive
      case Writing(_) => WriteDone
      case Flushing => Finish
      case Ended => Join;
  }

  /** From every reachable state in which the owner waits, the drop returns. */
  lemma {:induction false} DropReturns(s: State) returns (steps: seq<Step>)
    requires Consistent(s) && s.owner.Joining?
    ensures CanRun(s, steps) && Run(s, steps).owner.Dropped? && |steps| <= Left(s)
    ensures Run(s, steps).accepted == s.accepted
    decreases Left(s)
  {
    var step := JoinNeverStuck(s);
    StepsRunOut(s, step);
    StepConsistent(s, step);
    if step.Join? {
      RunLast(s, step, []);
      steps := [step] + [];
    } else {
      var rest := DropReturns(Next(s, step));
      RunLast(s, step, rest);
      steps := [step] + rest;
    }
  }
}
