/** Whole runs of the question wizard: what a completed run has answered, and
    that completion is always within reach. */
module AskUserFlow {
  import opened Text
  import opened AskUser

  /** A question that cannot be skipped: marked so, or the only one. */
  predicate Required(spec: Spec, i: nat)
    requires i < |spec.questions|
  {
    !CanSkip(spec, spec.questions[i])
  }

  function IdAt(spec: Spec, i: nat): string
    requires i < |spec.questions|
  {
    spec.questions[i].id
  }

  /** No later question bears the id of question `k`. */
  predicate IsLast(spec: Spec, k: nat)
    requires k < |spec.questions|
  {
    forall j :: k < j < |spec.questions| ==> IdAt(spec, j) != IdAt(spec, k)
  }

  predicate LastIsRequired(spec: Spec, id: string) {
    exists k :: 0 <= k < |spec.questions| && IdAt(spec, k) == id && IsLast(spec, k) && Required(spec, k)
  }

  /** The last question bearing the id of a required question is required. */
  predicate KeepsRequired(spec: Spec) {
    forall i :: 0 <= i < |spec.questions| && Required(spec, i) ==> LastIsRequired(spec, IdAt(spec, i))
  }

  predicate AllRequiredAnswered(spec: Spec, answers: map<string, Answer>) {
    forall i :: 0 <= i < |spec.questions| && Required(spec, i) ==> IdAt(spec, i) in answers
  }

  // ----- Safety -----

  /** Required, and no later question with the same id can be skipped. */
  predicate Firm(spec: Spec, k: nat)
    requires k < |spec.questions|
  {
    && Required(spec, k)
    && forall j :: k < j < |spec.questions| && IdAt(spec, j) == IdAt(spec, k) ==> Required(spec, j)
  }

  /** Every firm question the wizard has passed is answered. */
  predicate FirmAnswered(spec: Spec, d: Draft) {
    && d.index < |spec.questions|
    && forall k :: 0 <= k < d.index && Firm(spec, k) ==> IdAt(spec, k) in d.answers
  }

  lemma StepKeepsFirm(spec: Spec, d: Draft, action: Action)
    requires FirmAnswered(spec, d)
    ensures FirmAnswered(spec, Step(spec, d, action).0)
  {
    var r := Step(spec, d, action).0;
    forall k | 0 <= k < r.index && Firm(spec, k)
      ensures IdAt(spec, k) in r.answers
    {
      assert IdAt(spec, d.index) == spec.questions[d.index].id;
    }
  }

  lemma {:induction false} RunKeepsFirm(spec: Spec, d: Draft, actions: seq<Action>)
    requires FirmAnswered(spec, d)
    ensures FirmAnswered(spec, Run(spec, d, actions))
    decreases |actions|
  {
    if actions != [] {
      StepKeepsFirm(spec, d, actions[0]);
      RunKeepsFirm(spec, Step(spec, d, actions[0]).0, actions[1..]);
    }
  }

  /** What the last action of a run from `d` reports. */
  function Finish(spec: Spec, d: Draft, actions: seq<Action>): Outcome
    requires actions != []
  {
    Step(spec, Run(spec, d, actions[..|actions| - 1]), actions[|actions| - 1]).1
  }

  predicate Uncancelled(o: Outcome) { o.Completed? && !o.cancelled }

  /** The last action completes the wizard, which was pending until then. */
  predicate Completes(spec: Spec, d: Draft, actions: seq<Action>) {
    actions != [] && Proceeds(spec, d, actions[..|actions| - 1]) && Uncancelled(Finish(spec, d, actions))
  }

  lemma CompletionStep(spec: Spec, d: Draft, action: Action)
    requires FirmAnswered(spec, d) && KeepsRequired(spec)
    requires Uncancelled(Step(spec, d, action).1)
    ensures AllRequiredAnswered(spec, Step(spec, d, action).1.answers)
  {
    var answers := Step(spec, d, action).1.answers;
    forall i | 0 <= i < |spec.questions| && Required(spec, i)
      ensures IdAt(spec, i) in answers
    {
      assert LastIsRequired(spec, IdAt(spec, i));
      var k :| 0 <= k < |spec.questions| && IdAt(spec, k) == IdAt(spec, i) && IsLast(spec, k) && Required(spec, k);
      assert Firm(spec, k) && k <= d.index;
      assert IdAt(spec, d.index) == spec.questions[d.index].id;
    }
  }

  /** A run that completes without cancelling has answered every required question. */
  lemma CompletedAnswersRequired(spec: Spec, actions: seq<Action>)
    requires spec.questions != [] && KeepsRequired(spec)
    requires actions != [] && Uncancelled(Finish(spec, START, actions))
    ensures AllRequiredAnswered(spec, Finish(spec, START, actions).answers)
  {
    var init := actions[..|actions| - 1];
    RunKeepsFirm(spec, START, init);
    CompletionStep(spec, Run(spec, START, init), actions[|actions| - 1]);
  }

  lemma DistinctIdsKeepRequired(spec: Spec)
    requires DistinctIds(spec)
    ensures KeepsRequired(spec)
  {
    forall i | 0 <= i < |spec.questions| && Required(spec, i)
      ensures LastIsRequired(spec, IdAt(spec, i))
    {
      assert IsLast(spec, i);
    }
  }

  // ----- Editing a question until it can be submitted -----

  predicate Fillable(q: Question, want: seq<string>) {
    && NoDup(want) && |want| >= Minimum(q) && (q.maxSelections.Some? ==> |want| <= q.maxSelections.value)
    && (forall i :: 0 <= i < |want| ==> Accepts(q, want[i]))
    && (OTHER in want ==> q.allowOther)
  }

  predicate Answerable(q: Question, option: string) {
    Accepts(q, option) && (option == OTHER ==> q.allowOther)
  }

  /** The question has an answer at all. */
  ghost predicate Feasible(q: Question) {
    match q.mode
    case Confirm => true
    case Single => exists option :: Answerable(q, option)
    case Multi => exists want :: Fillable(q, want)
  }

  ghost predicate RequiredFeasible(spec: Spec) {
    forall i :: 0 <= i < |spec.questions| && Required(spec, i) ==> Feasible(spec.questions[i])
  }

  predicate NotedList(choices: seq<string>, notes: Option<string>) {
    NoDup(choices) && (OTHER in choices ==> notes.Some? && !Blank(notes.value))
  }

  /** True of every reachable draft, whatever the ids: no list repeats a choice,
      and "other" without a note can be taken back. */
  predicate Editable(spec: Spec, d: Draft) {
    && d.index < |spec.questions|
    && (spec.questions[d.index].mode.Multi? ==>
          NoDup(d.selected) &&
          (OTHER in d.selected && Blank(d.freeform) ==> Accepts(spec.questions[d.index], OTHER)))
    && NotedAnswers(d.answers)
  }

  predicate NotedAnswers(answers: map<string, Answer>) {
    forall id <- answers :: answers[id].value.Several? ==> NotedList(answers[id].value.choices, answers[id].notes)
  }

  lemma AnswerIsNoted(q: Question, selected: seq<string>, freeform: string)
    requires q.mode.Multi? ==> NoDup(selected)
    requires AnswerFor(q, selected, freeform).Some?
    ensures var a := AnswerFor(q, selected, freeform).value;
            a.questionId == q.id && (a.value.Several? ==> NotedList(a.value.choices, a.notes))
  {
    if !Blank(freeform) { TrimTwice(freeform); }
  }

  lemma SelectKeepsEditable(spec: Spec, d: Draft, option: string)
    requires Editable(spec, d) && Accepts(spec.questions[d.index], option)
    ensures Editable(spec, SelectStep(spec.questions[d.index], d, option).0)
  {
    var q, s := spec.questions[d.index], d.selected;
    if q.mode.Multi? {
      if option in s {
        RemoveAtKeeps(s, IndexOf(s, option));
      } else if !Full(q, |s|) {
        NoDupSnoc(s, option);
      } else if s != [] {
        NoDupSnoc(s[1..], option);
      }
    }
  }

  lemma SaveKeepsNoted(answers: map<string, Answer>, a: Answer)
    requires NotedAnswers(answers) && (a.value.Several? ==> NotedList(a.value.choices, a.notes))
    ensures NotedAnswers(answers[a.questionId := a])
  {}

  lemma AdvanceKeepsEditable(spec: Spec, d: Draft)
    requires Editable(spec, d)
    ensures Editable(spec, Advance(spec, d).0)
  {}

  lemma StepKeepsEditable(spec: Spec, d: Draft, action: Action)
    requires Editable(spec, d)
    ensures Editable(spec, Step(spec, d, action).0)
  {
    var q := spec.questions[d.index];
    var a := AnswerFor(q, d.selected, d.freeform);
    if a.Some? {
      AnswerIsNoted(q, d.selected, d.freeform);
      SaveKeepsNoted(d.answers, a.value);
    }
    match action {
      case Select(option) => if Accepts(q, option) { SelectKeepsEditable(spec, d, option); }
      case SetFreeform(_) =>
      case Cancel =>
      case Submit => if a.Some? { AdvanceKeepsEditable(spec, Save(d, a.value)); }
      case Reject =>
        var no := Answer(q.id, One("no"), Normalized(d.freeform));
        SaveKeepsNoted(d.answers, no);
        AdvanceKeepsEditable(spec, Save(d, no));
      case Skip =>
        var skipped := d.(answers := d.answers - {q.id});
        assert NotedAnswers(skipped.answers);
        AdvanceKeepsEditable(spec, skipped);
      case Back => BackKeepsEditable(spec, d);
    }
  }

  lemma BackKeepsEditable(spec: Spec, d: Draft)
    requires Editable(spec, d)
    ensures Editable(spec, BackStep(spec, spec.questions[d.index], d).0)
  {
    var q := spec.questions[d.index];
    var a := AnswerFor(q, d.selected, d.freeform);
    if a.Some? {
      AnswerIsNoted(q, d.selected, d.freeform);
      SaveKeepsNoted(d.answers, a.value);
    }
  }

  lemma {:induction false} ReachableEditable(spec: Spec, d: Draft, actions: seq<Action>)
    requires Editable(spec, d)
    ensures Editable(spec, Run(spec, d, actions))
    decreases |actions|
  {
    if actions != [] {
      StepKeepsEditable(spec, d, actions[0]);
      ReachableEditable(spec, Step(spec, d, actions[0]).0, actions[1..]);
    }
  }

  lemma {:induction false} RunAppend(spec: Spec, d: Draft, a: seq<Action>, b: seq<Action>)
    ensures Run(spec, d, a + b) == Run(spec, Run(spec, d, a), b)
    ensures Proceeds(spec, d, a + b) <==> Proceeds(spec, d, a) && Proceeds(spec, Run(spec, d, a), b)
    decreases |a|
  {
    if a == [] {
      assert a + b == b;
    } else {
      assert (a + b)[1..] == a[1..] + b;
      RunAppend(spec, Step(spec, d, a[0]).0, a[1..], b);
    }
  }

  lemma RunOne(spec: Spec, d: Draft, a: Action)
    ensures Run(spec, d, [a]) == Step(spec, d, a).0
    ensures Proceeds(spec, d, [a]) <==> Step(spec, d, a).1.Pending?
  {
    var next := Step(spec, d, a).0;
    assert [a][1..] == [];
    assert Run(spec, d, [a]) == Run(spec, next, []);
    assert Proceeds(spec, next, []);
  }

  /** `e` differs from `d` only in the current selection and text. */
  predicate SamePlace(d: Draft, e: Draft) { e.index == d.index && e.answers == d.answers }

  /** Selecting an absent option keeps the newest selections, as long as they
      leave room for one more. */
  lemma AddNew(spec: Spec, d: Draft, w: string, junk: seq<string>, done: seq<string>)
    returns (junk': seq<string>)
    requires d.index < |spec.questions| && spec.questions[d.index].mode.Multi?
    requires Accepts(spec.questions[d.index], w)
    requires d.selected == junk + done && w !in d.selected
    requires !Full(spec.questions[d.index], |done|)
    ensures var e := Step(spec, d, Select(w)).0;
            SamePlace(d, e) && e.selected == junk' + (done + [w]) && e.freeform == d.freeform
    ensures Step(spec, d, Select(w)).1.Pending?
  {
    var q := spec.questions[d.index];
    if Full(q, |d.selected|) {
      junk' := junk[1..];
      assert d.selected[1..] == junk' + done;
    } else {
      junk' := junk;
    }
  }

  /** Makes an option the newest selection. */
  lemma MakeNewest(spec: Spec, d: Draft, w: string, junk: seq<string>, done: seq<string>)
    returns (actions: seq<Action>, junk': seq<string>)
    requires d.index < |spec.questions| && spec.questions[d.index].mode.Multi?
    requires Accepts(spec.questions[d.index], w)
    requires NoDup(d.selected) && d.selected == junk + done && w !in done
    requires !Full(spec.questions[d.index], |done|)
    ensures var e := Run(spec, d, actions);
            && SamePlace(d, e) && NoDup(e.selected) && e.selected == junk' + (done + [w])
            && (e.freeform == d.freeform || w == OTHER)
            && (forall x <- e.selected :: x in d.selected || x == w)
    ensures Proceeds(spec, d, actions)
  {
    var q := spec.questions[d.index];
    if w in d.selected {
      var off, left := TakeOff(spec, d, w, junk, done);
      junk' := AddNew(spec, off, w, left, done);
      actions := [Select(w), Select(w)];
      assert [Select(w)] + [Select(w)] == actions;
      RunOne(spec, d, Select(w));
      RunOne(spec, off, Select(w));
      RunAppend(spec, d, [Select(w)], [Select(w)]);
      SelectNoDup(q, off, w);
    } else {
      junk' := AddNew(spec, d, w, junk, done);
      actions := [Select(w)];
      RunOne(spec, d, Select(w));
      SelectNoDup(q, d, w);
    }
  }

  /** Deselects an option that is not among the newest ones. */
  lemma TakeOff(spec: Spec, d: Draft, w: string, junk: seq<string>, done: seq<string>)
    returns (off: Draft, left: seq<string>)
    requires d.index < |spec.questions| && spec.questions[d.index].mode.Multi?
    requires Accepts(spec.questions[d.index], w)
    requires NoDup(d.selected) && d.selected == junk + done && w in d.selected && w !in done
    ensures Step(spec, d, Select(w)) == (off, Pending) && SamePlace(d, off) && off.selected == left + done
    ensures NoDup(off.selected) && w !in off.selected && (off.freeform == d.freeform || w == OTHER)
    ensures forall x <- off.selected :: x in d.selected
  {
    off := Step(spec, d, Select(w)).0;
    left := RemoveFront(junk, done, w);
  }

  lemma RemoveFront(junk: seq<string>, done: seq<string>, w: string) returns (left: seq<string>)
    requires w in junk + done && w !in done
    ensures RemoveAt(junk + done, IndexOf(junk + done, w)) == left + done
  {
    var i := IndexOf(junk + done, w);
    assert forall k :: 0 <= k < |done| ==> (junk + done)[|junk| + k] == done[k];
    left := RemoveAt(junk, i);
  }

  lemma SelectNoDup(q: Question, d: Draft, w: string)
    requires q.mode.Multi? && NoDup(d.selected) && w !in d.selected
    ensures var s := SelectStep(q, d, w).0.selected;
            NoDup(s) && forall x <- s :: x in d.selected || x == w
  {
    if !Full(q, |d.selected|) {
      NoDupSnoc(d.selected, w);
    } else if d.selected != [] {
      NoDupSnoc(d.selected[1..], w);
    }
  }

  /** "other" is either not selected or can be given a text. */
  predicate OtherInHand(q: Question, d: Draft) {
    OTHER in d.selected && Blank(d.freeform) ==> q.allowOther
  }

  lemma {:induction false} SelectAll(spec: Spec, d: Draft, want: seq<string>, n: nat, junk: seq<string>)
    returns (actions: seq<Action>)
    requires d.index < |spec.questions| && spec.questions[d.index].mode.Multi?
    requires n <= |want| && Fillable(spec.questions[d.index], want)
    requires NoDup(d.selected) && d.selected == junk + want[..n] && OtherInHand(spec.questions[d.index], d)
    ensures var e := Run(spec, d, actions);
            SamePlace(d, e) && |e.selected| >= |want| && OtherInHand(spec.questions[d.index], e)
    ensures Proceeds(spec, d, actions)
    decreases |want| - n
  {
    if n == |want| {
      actions := [];
    } else {
      var first, junk' := MakeNewest(spec, d, want[n], junk, want[..n]);
      var e := Run(spec, d, first);
      assert want[..n] + [want[n]] == want[..n + 1];
      var rest := SelectAll(spec, e, want, n + 1, junk');
      actions := first + rest;
      RunAppend(spec, d, first, rest);
    }
  }

  const SOME_TEXT := "x"

  predicate Submittable(q: Question, d: Draft) { AnswerFor(q, d.selected, d.freeform).Some? }

  /** Gives "other" a text if it needs one. */
  lemma GiveText(spec: Spec, d: Draft) returns (actions: seq<Action>)
    requires d.index < |spec.questions| && OtherInHand(spec.questions[d.index], d)
    ensures var e := Run(spec, d, actions);
            SamePlace(d, e) && e.selected == d.selected && (OTHER in e.selected ==> !Blank(e.freeform))
    ensures Proceeds(spec, d, actions)
  {
    if OTHER in d.selected && Blank(d.freeform) {
      actions := [SetFreeform(SOME_TEXT)];
      RunOne(spec, d, SetFreeform(SOME_TEXT));
    } else {
      actions := [];
    }
  }

  /** From any editable draft of a feasible question, some actions make it
      submittable without leaving it. */
  lemma Fill(spec: Spec, d: Draft) returns (actions: seq<Action>)
    requires Editable(spec, d) && Feasible(spec.questions[d.index])
    ensures var e := Run(spec, d, actions);
            SamePlace(d, e) && Submittable(spec.questions[d.index], e)
    ensures Proceeds(spec, d, actions)
  {
    var q := spec.questions[d.index];
    match q.mode {
      case Confirm => actions := [];
      case Single =>
        var option :| Answerable(q, option);
        RunOne(spec, d, Select(option));
        var picked := Run(spec, d, [Select(option)]);
        var text := GiveText(spec, picked);
        actions := [Select(option)] + text;
        RunAppend(spec, d, [Select(option)], text);
      case Multi =>
        actions := FillMulti(spec, d);
    }
  }

  lemma FillMulti(spec: Spec, d: Draft) returns (actions: seq<Action>)
    requires Editable(spec, d) && spec.questions[d.index].mode.Multi? && Feasible(spec.questions[d.index])
    ensures var e := Run(spec, d, actions);
            SamePlace(d, e) && Submittable(spec.questions[d.index], e)
    ensures Proceeds(spec, d, actions)
  {
    var q := spec.questions[d.index];
    var want :| Fillable(q, want);
    var first := DropOther(spec, d);
    var e := Run(spec, d, first);
    assert e.selected == e.selected + want[..0];
    var second := SelectAll(spec, e, want, 0, e.selected);
    var f := Run(spec, e, second);
    var third := GiveText(spec, f);
    RunAppend(spec, e, second, third);
    RunAppend(spec, d, first, second + third);
    actions := first + (second + third);
  }

  /** Takes "other" back when it could be given no text. */
  lemma DropOther(spec: Spec, d: Draft) returns (actions: seq<Action>)
    requires Editable(spec, d) && spec.questions[d.index].mode.Multi?
    ensures var e := Run(spec, d, actions);
            SamePlace(d, e) && NoDup(e.selected) && OtherInHand(spec.questions[d.index], e)
    ensures Proceeds(spec, d, actions)
  {
    if OtherInHand(spec.questions[d.index], d) {
      actions := [];
    } else {
      actions := [Select(OTHER)];
      RunOne(spec, d, Select(OTHER));
    }
  }

  // ----- Completion -----

  /** Appending to a run moves its start. */
  lemma FinishAppend(spec: Spec, d: Draft, a: seq<Action>, b: seq<Action>)
    requires b != []
    ensures Finish(spec, d, a + b) == Finish(spec, Run(spec, d, a), b)
    ensures Completes(spec, d, a + b) <==> Proceeds(spec, d, a) && Completes(spec, Run(spec, d, a), b)
  {
    var init, last := b[..|b| - 1], b[|b| - 1];
    assert b == init + [last] && a + b == (a + init) + [last];
    FinishSnoc(spec, d, a + init, last);
    FinishSnoc(spec, Run(spec, d, a), init, last);
    RunAppend(spec, d, a, init);
  }

  lemma FinishSnoc(spec: Spec, d: Draft, init: seq<Action>, last: Action)
    ensures Finish(spec, d, init + [last]) == Step(spec, Run(spec, d, init), last).1
    ensures Completes(spec, d, init + [last]) <==>
            Proceeds(spec, d, init) && Uncancelled(Step(spec, Run(spec, d, init), last).1)
  {
    assert (init + [last])[..|init|] == init;
  }

  /** Passes the current question: skipped if it may be, answered otherwise. */
  lemma Pass(spec: Spec, d: Draft) returns (edits: seq<Action>, last: Action, answers: map<string, Answer>)
    requires Editable(spec, d) && RequiredFeasible(spec)
    ensures var e := Run(spec, d, edits);
            Step(spec, e, last) == Advance(spec, e.(answers := answers)) && e.index == d.index
    ensures Proceeds(spec, d, edits)
    ensures forall id :: id in answers <==>
              if id == IdAt(spec, d.index) then Required(spec, d.index) else id in d.answers
  {
    var q := spec.questions[d.index];
    if CanSkip(spec, q) {
      edits, last, answers := [], Skip, d.answers - {q.id};
    } else {
      edits := Fill(spec, d);
      var e := Run(spec, d, edits);
      var a := AnswerFor(q, e.selected, e.freeform).value;
      last, answers := Submit, d.answers[q.id := a];
    }
  }

  predicate Asked(spec: Spec, i: nat, id: string) {
    exists k :: i <= k < |spec.questions| && IdAt(spec, k) == id
  }

  /** Of the ids asked from question `i` on, exactly those whose last question is
      required are answered in the end; the others are as before. */
  ghost predicate RequiredRemain(spec: Spec, i: nat, before: map<string, Answer>, final: map<string, Answer>) {
    && (forall k :: i <= k < |spec.questions| && IsLast(spec, k) ==> (IdAt(spec, k) in final <==> Required(spec, k)))
    && (forall id: string :: !Asked(spec, i, id) ==> (id in final <==> id in before))
  }

  lemma OneMoreRemains(spec: Spec, i: nat, before: map<string, Answer>, answers: map<string, Answer>,
                       final: map<string, Answer>)
    requires i < |spec.questions| && RequiredRemain(spec, i + 1, answers, final)
    requires forall id :: id in answers <==> if id == IdAt(spec, i) then Required(spec, i) else id in before
    ensures RequiredRemain(spec, i, before, final)
  {
    if IsLast(spec, i) { assert !Asked(spec, i + 1, IdAt(spec, i)); }
    forall id: string | !Asked(spec, i, id) ensures id in final <==> id in before {
      assert IdAt(spec, i) != id && !Asked(spec, i + 1, id);
    }
  }

  lemma LastRemains(spec: Spec, before: map<string, Answer>, answers: map<string, Answer>)
    requires spec.questions != []
    requires var i := |spec.questions| - 1;
             forall id :: id in answers <==> if id == IdAt(spec, i) then Required(spec, i) else id in before
    ensures RequiredRemain(spec, |spec.questions| - 1, before, answers)
  {
    var i := |spec.questions| - 1;
    forall id: string | !Asked(spec, i, id) ensures id in answers <==> id in before { assert IdAt(spec, i) != id; }
  }

  /** From any editable draft the wizard can be completed, skipping whatever may
      be skipped; then exactly the ids whose last question is required remain. */
  lemma {:induction false} Complete(spec: Spec, d: Draft) returns (actions: seq<Action>)
    requires Editable(spec, d) && RequiredFeasible(spec)
    ensures Completes(spec, d, actions)
    ensures RequiredRemain(spec, d.index, d.answers, Finish(spec, d, actions).answers)
    decreases |spec.questions| - d.index
  {
    var edits, last, answers := Pass(spec, d);
    var e := Run(spec, d, edits);
    FinishSnoc(spec, d, edits, last);
    if d.index + 1 >= |spec.questions| {
      actions := edits + [last];
      LastRemains(spec, d.answers, answers);
    } else {
      ReachableEditable(spec, d, edits + [last]);
      RunAppend(spec, d, edits, [last]);
      RunOne(spec, e, last);
      var next := Run(spec, d, edits + [last]);
      var rest := Complete(spec, next);
      actions := (edits + [last]) + rest;
      FinishAppend(spec, d, edits + [last], rest);
      assert next.index == d.index + 1 && next.answers == answers;
      OneMoreRemains(spec, d.index, d.answers, answers, Finish(spec, next, rest).answers);
    }
  }

  /** Every run that is still pending can be completed. */
  lemma CompletionReachable(spec: Spec, before: seq<Action>) returns (actions: seq<Action>)
    requires spec.questions != [] && RequiredFeasible(spec) && Proceeds(spec, START, before)
    ensures Completes(spec, START, before + actions)
  {
    ReachableEditable(spec, START, before);
    actions := Complete(spec, Run(spec, START, before));
    FinishAppend(spec, START, before, actions);
  }

  lemma {:induction false} LastIndex(spec: Spec, i: nat) returns (k: nat)
    requires i < |spec.questions|
    ensures i <= k < |spec.questions| && IdAt(spec, k) == IdAt(spec, i) && IsLast(spec, k)
    decreases |spec.questions| - i
  {
    if IsLast(spec, i) {
      k := i;
    } else {
      var j :| i < j < |spec.questions| && IdAt(spec, j) == IdAt(spec, i);
      k := LastIndex(spec, j);
    }
  }

  /** If the last question bearing some required id can be skipped, some run
      completes without that answer. */
  lemma UnsafeRun(spec: Spec) returns (actions: seq<Action>)
    requires spec.questions != [] && RequiredFeasible(spec) && !KeepsRequired(spec)
    ensures Completes(spec, START, actions)
    ensures !AllRequiredAnswered(spec, Finish(spec, START, actions).answers)
  {
    actions := Complete(spec, START);
    var i :| 0 <= i < |spec.questions| && Required(spec, i) && !LastIsRequired(spec, IdAt(spec, i));
    var k := LastIndex(spec, i);
    assert !Required(spec, k) && IdAt(spec, k) !in Finish(spec, START, actions).answers;
  }

  ghost predicate CompletionsAnswerRequired(spec: Spec) {
    forall actions :: Completes(spec, START, actions) ==>
      AllRequiredAnswered(spec, Finish(spec, START, actions).answers)
  }

  /** Exactly the wizards in which the last question of every required id is
      required never complete with a required answer missing. */
  lemma RequiredAnsweredExactly(spec: Spec)
    requires spec.questions != [] && RequiredFeasible(spec)
    ensures CompletionsAnswerRequired(spec) <==> KeepsRequired(spec)
  {
    if KeepsRequired(spec) {
      forall actions | Completes(spec, START, actions)
        ensures AllRequiredAnswered(spec, Finish(spec, START, actions).answers)
      {
        CompletedAnswersRequired(spec, actions);
      }
    } else {
      var actions := UnsafeRun(spec);
    }
  }
}
