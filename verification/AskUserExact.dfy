/** Exactly which wizards keep their drafts well-formed, and which can be completed. */
module AskUserExact {
  import opened Text
  import opened AskUser
  import opened AskUserFlow

  // ----- Giving a chosen answer -----

  /** The draft edits the question at its index, and nothing else is said of it. */
  predicate Here(spec: Spec, d: Draft, q: Question) { d.index < |spec.questions| && spec.questions[d.index] == q }

  /** Deselects everything. */
  lemma {:induction false} ClearAll(spec: Spec, d: Draft, q: Question) returns (actions: seq<Action>)
    requires Here(spec, d, q) && q.mode.Multi? && WellSelected(q, d.selected)
    ensures var e := Run(spec, d, actions); SamePlace(d, e) && e.selected == []
    ensures Proceeds(spec, d, actions)
    decreases |d.selected|
  {
    if d.selected == [] {
      actions := [];
    } else {
      var first := d.selected[0];
      var e := Step(spec, d, Select(first)).0;
      RemoveAtKeeps(d.selected, 0);
      SelectFits(q, d, first);
      RunOne(spec, d, Select(first));
      var rest := ClearAll(spec, e, q);
      actions := [Select(first)] + rest;
      RunAppend(spec, d, [Select(first)], rest);
    }
  }

  /** Selects the wanted options one by one. */
  lemma {:induction false} PickAll(spec: Spec, d: Draft, q: Question, want: seq<string>, n: nat)
    returns (actions: seq<Action>)
    requires Here(spec, d, q) && q.mode.Multi? && WellSelected(q, want)
    requires n <= |want| && d.selected == want[..n]
    ensures var e := Run(spec, d, actions); SamePlace(d, e) && e.selected == want
    ensures Proceeds(spec, d, actions)
    decreases |want| - n
  {
    if n == |want| {
      actions := [];
    } else {
      var next := Select(want[n]);
      assert want[n] !in want[..n] && want[..n + 1] == want[..n] + [want[n]];
      RunOne(spec, d, next);
      var rest := PickAll(spec, Step(spec, d, next).0, q, want, n + 1);
      actions := [next] + rest;
      RunAppend(spec, d, [next], rest);
    }
  }

  /** Gives "other" its text. */
  lemma WriteText(spec: Spec, d: Draft, q: Question, notes: Option<string>) returns (actions: seq<Action>)
    requires Here(spec, d, q) && WellNoted(OTHER in d.selected, notes) && (OTHER in d.selected ==> q.allowOther)
    ensures var e := Run(spec, d, actions);
            SamePlace(d, e) && e.selected == d.selected && (OTHER in d.selected ==> e.freeform == notes.value)
    ensures Proceeds(spec, d, actions)
  {
    if OTHER in d.selected {
      actions := [SetFreeform(notes.value)];
      RunOne(spec, d, SetFreeform(notes.value));
    } else {
      actions := [];
    }
  }

  lemma ChooseOne(spec: Spec, d: Draft, q: Question, a: Answer) returns (actions: seq<Action>)
    requires Here(spec, d, q) && q.mode.Single? && WellAnswered(q, a)
    ensures var e := Run(spec, d, actions); SamePlace(d, e) && AnswerFor(q, e.selected, e.freeform) == Some(a)
    ensures Proceeds(spec, d, actions)
  {
    var pick := Select(a.value.choice);
    var e := Step(spec, d, pick).0;
    RunOne(spec, d, pick);
    var text := WriteText(spec, e, q, a.notes);
    actions := [pick] + text;
    RunAppend(spec, d, [pick], text);
  }

  lemma ChooseSeveral(spec: Spec, d: Draft, q: Question, a: Answer) returns (actions: seq<Action>)
    requires Here(spec, d, q) && q.mode.Multi? && WellSelected(q, d.selected) && WellAnswered(q, a)
    ensures var e := Run(spec, d, actions); SamePlace(d, e) && AnswerFor(q, e.selected, e.freeform) == Some(a)
    ensures Proceeds(spec, d, actions)
  {
    var clear := ClearAll(spec, d, q);
    var e := Run(spec, d, clear);
    var pick := PickAll(spec, e, q, a.value.choices, 0);
    var f := Run(spec, e, pick);
    var text := WriteText(spec, f, q, a.notes);
    RunAppend(spec, e, pick, text);
    RunAppend(spec, d, clear, pick + text);
    actions := clear + (pick + text);
  }

  /** From a well-formed draft every answer of the current question can be saved. */
  lemma Give(spec: Spec, d: Draft, q: Question, a: Answer) returns (edits: seq<Action>, last: Action)
    requires Here(spec, d, q) && WellEdited(q, d.selected, d.freeform) && WellAnswered(q, a)
    ensures Proceeds(spec, d, edits)
    ensures var after := Step(spec, Run(spec, d, edits), last).0.answers;
            a.questionId in after && after[a.questionId] == a
  {
    match q.mode {
      case Confirm =>
        edits, last := [], if a.value == One("yes") then Submit else Reject;
        assert Normalized("") == None;
      case Single =>
        edits := ChooseOne(spec, d, q, a);
        last := Submit;
      case Multi =>
        edits := ChooseSeveral(spec, d, q, a);
        last := Submit;
    }
  }

  // ----- Exactly the well-formed wizards -----

  /** Some pending run arrives at every question. */
  lemma {:induction false} Reach(spec: Spec, i: nat) returns (actions: seq<Action>)
    requires i < |spec.questions| && RequiredFeasible(spec)
    ensures Proceeds(spec, START, actions) && Run(spec, START, actions).index == i
    ensures Editable(spec, Run(spec, START, actions))
  {
    if i == 0 {
      actions := [];
    } else {
      var before := Reach(spec, i - 1);
      var d := Run(spec, START, before);
      var edits, last, answers := Pass(spec, d);
      var e := Run(spec, d, edits);
      RunOne(spec, e, last);
      RunAppend(spec, d, edits, [last]);
      RunAppend(spec, START, before, edits + [last]);
      ReachableEditable(spec, d, edits + [last]);
      actions := before + (edits + [last]);
    }
  }

  /** If an answer of one question is none of another question with the same id,
      some run leaves a draft that is not well-formed, and is pending until then. */
  lemma IllFormedRun(spec: Spec, i: nat, q: Question, a: Answer) returns (init: seq<Action>, last: Action)
    requires i < |spec.questions| && q in spec.questions && spec.questions[i].id == q.id && RequiredFeasible(spec)
    requires WellAnswered(spec.questions[i], a) && !WellAnswered(q, a)
    ensures Proceeds(spec, START, init)
    ensures !WellFormed(spec, Run(spec, START, init)) || !WellFormed(spec, Step(spec, Run(spec, START, init), last).0)
  {
    init := Reach(spec, i);
    last := Cancel;
    var d := Run(spec, START, init);
    if WellFormed(spec, d) {
      var edits;
      edits, last := Give(spec, d, spec.questions[i], a);
      RunAppend(spec, START, init, edits);
      init := init + edits;
      var after := Step(spec, Run(spec, START, init), last).0.answers;
      assert !AnswerFitsAt(q, after);
    }
  }

  ghost predicate AlwaysWellFormed(spec: Spec) {
    forall actions :: WellFormed(spec, Run(spec, START, actions))
  }

  /** Every draft of every run is well-formed exactly if questions with the same id
      have the same answers. */
  lemma WellFormedExactly(spec: Spec)
    requires spec.questions != [] && RequiredFeasible(spec)
    ensures AlwaysWellFormed(spec) <==> Compatible(spec)
  {
    if Compatible(spec) {
      forall actions ensures WellFormed(spec, Run(spec, START, actions)) {
        ReachableWellFormed(spec, START, actions);
      }
    } else {
      var p, q :| p in spec.questions && q in spec.questions && p.id == q.id && !SameAnswers(p, q);
      var a :| WellAnswered(p, a) && !WellAnswered(q, a);
      var i :| 0 <= i < |spec.questions| && spec.questions[i] == p;
      var init, last := IllFormedRun(spec, i, q, a);
      RunAppend(spec, START, init, [last]);
      RunOne(spec, Run(spec, START, init), last);
      assert !WellFormed(spec, Run(spec, START, init)) || !WellFormed(spec, Run(spec, START, init + [last]));
    }
  }

  const ASK := Question("x", Confirm, [], None, false, None, None)
  const PICK := Question("x", Single, [Choice(Some("a"), "A")], None, false, None, None)

  /** Confirming one question and then choosing under the same id is such a case. */
  lemma RepeatedIdFails()
    ensures !WellFormed(Spec(None, [ASK, PICK]), Run(Spec(None, [ASK, PICK]), START, [Submit]))
  {
    var spec := Spec(None, [ASK, PICK]);
    RunOne(spec, START, Submit);
    var after := Run(spec, START, [Submit]).answers;
    assert after["x"] == Answer("x", One("yes"), None);
    assert OptionIds(PICK.options) == ["a"];
    assert !AnswerFitsAt(PICK, after) && PICK in spec.questions;
  }

  // ----- Exactly the completable wizards -----

  lemma AnswerMakesFeasible(q: Question, a: Answer)
    requires WellAnswered(q, a)
    ensures Feasible(q)
  {
    match q.mode
    case Confirm =>
    case Single => assert Answerable(q, a.value.choice);
    case Multi => assert Fillable(q, a.value.choices);
  }

  /** Every required question the wizard has passed has an answer at all. */
  ghost predicate PassedFeasible(spec: Spec, n: nat) {
    forall i :: 0 <= i < n && i < |spec.questions| && Required(spec, i) ==> Feasible(spec.questions[i])
  }

  lemma OneFurther(spec: Spec, d: Draft, action: Action)
    requires d.index < |spec.questions|
    ensures Step(spec, d, action).0.index <= d.index + 1
  {}

  lemma CannotPass(spec: Spec, d: Draft, action: Action)
    requires d.index < |spec.questions| && Required(spec, d.index)
    requires var q := spec.questions[d.index]; !q.mode.Confirm? && AnswerFor(q, d.selected, d.freeform).None?
    ensures Step(spec, d, action).0.index <= d.index && !Uncancelled(Step(spec, d, action).1)
  {}

  lemma StepPassesFeasible(spec: Spec, d: Draft, action: Action)
    requires WellFormed(spec, d) && PassedFeasible(spec, d.index)
    ensures PassedFeasible(spec, Step(spec, d, action).0.index)
    ensures Uncancelled(Step(spec, d, action).1) ==> PassedFeasible(spec, d.index + 1)
  {
    var q := spec.questions[d.index];
    OneFurther(spec, d, action);
    if Required(spec, d.index) && !q.mode.Confirm? {
      var a := AnswerFor(q, d.selected, d.freeform);
      if a.None? {
        CannotPass(spec, d, action);
      } else {
        AnswerFits(q, d.selected, d.freeform);
        AnswerMakesFeasible(q, a.value);
      }
    }
  }

  lemma {:induction false} RunPassesFeasible(spec: Spec, d: Draft, actions: seq<Action>)
    requires Compatible(spec) && WellFormed(spec, d) && PassedFeasible(spec, d.index)
    ensures PassedFeasible(spec, Run(spec, d, actions).index)
    decreases |actions|
  {
    if actions != [] {
      StepPassesFeasible(spec, d, actions[0]);
      StepKeepsWellFormed(spec, d, actions[0]);
      RunPassesFeasible(spec, Step(spec, d, actions[0]).0, actions[1..]);
    }
  }

  lemma CompletedIsFeasible(spec: Spec, actions: seq<Action>)
    requires spec.questions != [] && Compatible(spec) && Completes(spec, START, actions)
    ensures RequiredFeasible(spec)
  {
    var init, last := actions[..|actions| - 1], actions[|actions| - 1];
    ReachableWellFormed(spec, START, init);
    RunPassesFeasible(spec, START, init);
    var d := Run(spec, START, init);
    StepPassesFeasible(spec, d, last);
    LastToComplete(spec, d, last);
  }

  lemma LastToComplete(spec: Spec, d: Draft, action: Action)
    requires d.index < |spec.questions| && Uncancelled(Step(spec, d, action).1)
    ensures d.index + 1 >= |spec.questions|
  {}

  /** A wizard can be completed exactly if every required question has an answer. */
  lemma CompletableExactly(spec: Spec)
    requires spec.questions != [] && Compatible(spec)
    ensures (exists actions :: Completes(spec, START, actions)) <==> RequiredFeasible(spec)
  {
    if RequiredFeasible(spec) {
      var actions := Complete(spec, START);
    }
    forall actions | Completes(spec, START, actions) ensures RequiredFeasible(spec) {
      CompletedIsFeasible(spec, actions);
    }
  }

  /** Without the assumption that required questions have answers: a wizard never
      completes with a required answer missing exactly if it can never be completed
      or the last question of every required id is required. */
  lemma CompletionsExactly(spec: Spec)
    requires spec.questions != [] && Compatible(spec)
    ensures CompletionsAnswerRequired(spec) <==> (RequiredFeasible(spec) ==> KeepsRequired(spec))
  {
    CompletableExactly(spec);
    if RequiredFeasible(spec) { RequiredAnsweredExactly(spec); }
  }
}
