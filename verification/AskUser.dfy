/** The question wizard: a draft of answers edited one question at a time. */
module AskUser {
  import opened Text

  const OTHER := "other"

  datatype Mode = Confirm | Single | Multi

  datatype Choice = Choice(id: Option<string>, caption: string)

  datatype Question = Question(id: string, mode: Mode, options: seq<Choice>, skippable: Option<bool>,
                               allowOther: bool, minSelections: Option<nat>, maxSelections: Option<nat>)

  datatype Spec = Spec(dismissable: Option<bool>, questions: seq<Question>)

  datatype Value = One(choice: string) | Several(choices: seq<string>)

  datatype Answer = Answer(questionId: string, value: Value, notes: Option<string>)

  datatype Action = Select(option: string) | SetFreeform(value: string)
                  | Submit | Reject | Skip | Back | Cancel

  /** `Panicked`: the oldest selection is removed from an empty list. */
  datatype Outcome = Pending | Completed(answers: map<string, Answer>, cancelled: bool) | Panicked

  datatype Draft = Draft(index: nat, answers: map<string, Answer>, selected: seq<string>, freeform: string)

  const START := Draft(0, map[], [], "")

  function OptionId(c: Choice, index: nat): string {
    if c.id.Some? && !Blank(c.id.value) then c.id.value
    else if Blank(c.caption) then "opt-" + Decimal(index)
    else c.caption
  }

  function OptionIds(options: seq<Choice>): seq<string> {
    seq(|options|, i requires 0 <= i < |options| => OptionId(options[i], i))
  }

  predicate Accepts(q: Question, option: string) {
    (q.allowOther && option == OTHER) || option in OptionIds(q.options)
  }

  function Normalized(s: string): Option<string> {
    if Blank(s) then None else Some(Trim(s))
  }

  function Minimum(q: Question): nat {
    if q.minSelections.Some? then q.minSelections.value else 1
  }

  predicate Full(q: Question, n: nat) { q.maxSelections.Some? && n >= q.maxSelections.value }

  function AnswerFor(q: Question, selected: seq<string>, freeform: string): Option<Answer> {
    match q.mode
    case Confirm => Some(Answer(q.id, One("yes"), None))
    case Single =>
      if selected == [] then None
      else if selected[0] == OTHER then
        if Blank(freeform) then None
        else Some(Answer(q.id, One(selected[0]), Normalized(freeform)))
      else Some(Answer(q.id, One(selected[0]), None))
    case Multi =>
      if |selected| < Minimum(q) then None
      else if OTHER in selected then
        if Blank(freeform) then None
        else Some(Answer(q.id, Several(selected), Normalized(freeform)))
      else Some(Answer(q.id, Several(selected), None))
  }

  /** The draft with the saved answer of its question, if any, loaded. */
  function Load(spec: Spec, index: nat, answers: map<string, Answer>): (d: Draft)
    requires index < |spec.questions|
    ensures d.index == index && d.answers == answers
  {
    var q := spec.questions[index];
    if q.id !in answers then Draft(index, answers, [], "")
    else
      var a := answers[q.id];
      var selected := match (a.value, q.mode)
        case (One(choice), Single) => [choice]
        case (Several(choices), Multi) => choices
        case _ => [];
      Draft(index, answers, selected, if a.notes.Some? then a.notes.value else "")
  }

  function Advance(spec: Spec, d: Draft): (r: (Draft, Outcome))
    ensures r.0.answers == d.answers
  {
    if d.index + 1 >= |spec.questions| then (d, Completed(d.answers, false))
    else (Load(spec, d.index + 1, d.answers), Pending)
  }

  function RemoveAt(s: seq<string>, i: nat): seq<string>
    requires i < |s|
  {
    s[..i] + s[i + 1..]
  }

  function IndexOf(s: seq<string>, x: string): (i: nat)
    requires x in s
    ensures i < |s| && s[i] == x && x !in s[..i]
  {
    if s[0] == x then 0 else 1 + IndexOf(s[1..], x)
  }

  function SelectStep(q: Question, d: Draft, option: string): (r: (Draft, Outcome))
    ensures r.0.answers == d.answers
  {
    match q.mode
    case Confirm => (d, Pending)
    case Single => (d.(selected := [option], freeform := if option == OTHER then d.freeform else ""), Pending)
    case Multi =>
      if option in d.selected then
        (d.(selected := RemoveAt(d.selected, IndexOf(d.selected, option)),
            freeform := if option == OTHER then "" else d.freeform), Pending)
      else if !Full(q, |d.selected|) then (d.(selected := d.selected + [option]), Pending)
      else if d.selected == [] then (d, Panicked)
      else (d.(selected := d.selected[1..] + [option]), Pending)
  }

  function Save(d: Draft, a: Answer): Draft { d.(answers := d.answers[a.questionId := a]) }

  predicate CanSkip(spec: Spec, q: Question) { |spec.questions| > 1 && q.skippable != Some(false) }

  function SubmitStep(spec: Spec, q: Question, d: Draft): (Draft, Outcome) {
    var a := AnswerFor(q, d.selected, d.freeform);
    if a.None? then (d, Pending) else Advance(spec, Save(d, a.value))
  }

  function RejectStep(spec: Spec, q: Question, d: Draft): (Draft, Outcome) {
    if q.mode.Confirm? then Advance(spec, Save(d, Answer(q.id, One("no"), Normalized(d.freeform))))
    else (d, Pending)
  }

  function SkipStep(spec: Spec, q: Question, d: Draft): (Draft, Outcome) {
    if CanSkip(spec, q) then Advance(spec, d.(answers := d.answers - {q.id})) else (d, Pending)
  }

  /** Going back saves the current selection first when it makes an answer. */
  function BackStep(spec: Spec, q: Question, d: Draft): (Draft, Outcome)
    requires d.index < |spec.questions|
  {
    if d.index == 0 then (d, Pending)
    else
      var a := if q.mode.Confirm? then None else AnswerFor(q, d.selected, d.freeform);
      (Load(spec, d.index - 1, if a.Some? then Save(d, a.value).answers else d.answers), Pending)
  }

  function Step(spec: Spec, d: Draft, action: Action): (Draft, Outcome) {
    if d.index >= |spec.questions| then (d, Pending)
    else
      var q := spec.questions[d.index];
      match action
      case Select(option) => if Accepts(q, option) then SelectStep(q, d, option) else (d, Pending)
      case SetFreeform(value) =>
        (if q.allowOther && OTHER in d.selected then d.(freeform := value) else d, Pending)
      case Submit => SubmitStep(spec, q, d)
      case Reject => RejectStep(spec, q, d)
      case Skip => SkipStep(spec, q, d)
      case Back => BackStep(spec, q, d)
      case Cancel =>
        if spec.dismissable != Some(false) then (d, Completed(d.answers, true)) else (d, Pending)
  }

  function Run(spec: Spec, d: Draft, actions: seq<Action>): Draft
    decreases |actions|
  {
    if actions == [] then d else Run(spec, Step(spec, d, actions[0]).0, actions[1..])
  }

  /** The wizard is still pending after every one of the actions. */
  predicate Proceeds(spec: Spec, d: Draft, actions: seq<Action>)
    decreases |actions|
  {
    actions == [] || (Step(spec, d, actions[0]).1.Pending? && Proceeds(spec, Step(spec, d, actions[0]).0, actions[1..]))
  }

  class AskUserDraft {
    var questionIndex: nat
    var answers: map<string, Answer>
    var selected: seq<string>
    var freeform: string

    function View(): Draft
      reads this
    {
      Draft(questionIndex, answers, selected, freeform)
    }

    constructor ()
      ensures View() == START
    {
      questionIndex, answers, selected, freeform := 0, map[], [], "";
    }

    method LoadCurrentAnswer(spec: Spec)
      modifies this
      ensures questionIndex == old(questionIndex) && answers == old(answers)
      ensures questionIndex < |spec.questions| ==> View() == Load(spec, questionIndex, answers)
      ensures questionIndex >= |spec.questions| ==> selected == [] && freeform == ""
    {
      selected, freeform := [], "";
      if questionIndex >= |spec.questions| { return; }
      var q := spec.questions[questionIndex];
      if q.id !in answers { return; }
      var answer := answers[q.id];
      match answer.value {
        case One(choice) => if q.mode.Single? { selected := [choice]; }
        case Several(choices) => if q.mode.Multi? { selected := choices; }
      }
      freeform := if answer.notes.Some? then answer.notes.value else "";
    }

    method MoveOn(spec: Spec) returns (outcome: Outcome)
      modifies this
      ensures (View(), outcome) == Advance(spec, old(View()))
    {
      if questionIndex + 1 >= |spec.questions| { return Completed(answers, false); }
      questionIndex := questionIndex + 1;
      LoadCurrentAnswer(spec);
      outcome := Pending;
    }

    method Toggle(q: Question, option: string) returns (outcome: Outcome)
      requires q.mode.Multi?
      modifies this
      ensures (View(), outcome) == SelectStep(q, old(View()), option)
    {
      var i := 0;
      while i < |selected| && selected[i] != option
        invariant 0 <= i <= |selected| && option !in selected[..i]
        invariant View() == old(View())
      {
        i := i + 1;
      }
      if i < |selected| {
        FirstIndex(selected, option, i);
        selected := selected[..i] + selected[i + 1..];
        if option == OTHER { freeform := ""; }
      } else {
        if q.maxSelections.Some? && |selected| >= q.maxSelections.value {
          if selected == [] { return Panicked; }
          selected := selected[1..];
        }
        selected := selected + [option];
      }
      outcome := Pending;
    }

    method Apply(spec: Spec, action: Action) returns (outcome: Outcome)
      modifies this
      ensures (View(), outcome) == Step(spec, old(View()), action)
    {
      outcome := Pending;
      if questionIndex >= |spec.questions| { return; }
      var q := spec.questions[questionIndex];
      match action {
        case Select(option) =>
          if !Accepts(q, option) { return; }
          if q.mode.Single? {
            selected := [option];
            if option != OTHER { freeform := ""; }
          } else if q.mode.Multi? {
            outcome := Toggle(q, option);
          }
        case SetFreeform(value) =>
          if q.allowOther && OTHER in selected { freeform := value; }
        case Submit =>
          var answer := AnswerFor(q, selected, freeform);
          if answer.None? { return; }
          answers := answers[answer.value.questionId := answer.value];
          outcome := MoveOn(spec);
        case Reject =>
          if !q.mode.Confirm? { return; }
          answers := answers[q.id := Answer(q.id, One("no"), Normalized(freeform))];
          outcome := MoveOn(spec);
        case Skip =>
          if !CanSkip(spec, q) { return; }
          answers := answers - {q.id};
          outcome := MoveOn(spec);
        case Back =>
          if questionIndex == 0 { return; }
          if !q.mode.Confirm? {
            var answer := AnswerFor(q, selected, freeform);
            if answer.Some? { answers := answers[answer.value.questionId := answer.value]; }
          }
          questionIndex := questionIndex - 1;
          LoadCurrentAnswer(spec);
        case Cancel =>
          if spec.dismissable != Some(false) { outcome := Completed(answers, true); }
      }
    }
  }

  lemma {:induction false} FirstIndex(s: seq<string>, x: string, i: nat)
    requires i < |s| && s[i] == x && x !in s[..i]
    ensures IndexOf(s, x) == i
  {
    if i > 0 {
      assert s[..i] == [s[0]] + s[1..][..i - 1];
      FirstIndex(s[1..], x, i - 1);
    }
  }

  // ----- Well-formed states -----

  predicate DistinctIds(spec: Spec) {
    forall i, j :: 0 <= i < j < |spec.questions| ==> spec.questions[i].id != spec.questions[j].id
  }

  /** A selection within the question's options, mode and maximum. */
  predicate WellSelected(q: Question, selected: seq<string>) {
    && NoDup(selected)
    && (forall i :: 0 <= i < |selected| ==> Accepts(q, selected[i]))
    && match q.mode
       case Confirm => selected == []
       case Single => |selected| <= 1
       case Multi => q.maxSelections.Some? ==> |selected| <= q.maxSelections.value
  }

  /** Notes are trimmed and not blank, and present exactly with "other". */
  predicate WellNoted(other: bool, notes: Option<string>) {
    notes.Some? == other && (other ==> !Blank(notes.value) && Trim(notes.value) == notes.value)
  }

  predicate MentionsOther(a: Answer) {
    match a.value
    case One(choice) => choice == OTHER
    case Several(choices) => OTHER in choices
  }

  /** An answer of the question's mode, with "other" only where that is allowed. */
  predicate WellAnswered(q: Question, a: Answer) {
    && a.questionId == q.id
    && (MentionsOther(a) ==> q.allowOther)
    && match q.mode
       case Confirm => (a.value == One("yes") || a.value == One("no")) && a.notes == None
       case Single => a.value.One? && Accepts(q, a.value.choice) && WellNoted(a.value.choice == OTHER, a.notes)
       case Multi => && a.value.Several? && WellSelected(q, a.value.choices)
                     && |a.value.choices| >= Minimum(q) && WellNoted(OTHER in a.value.choices, a.notes)
  }

  predicate AnswerFitsAt(q: Question, answers: map<string, Answer>) {
    q.id in answers ==> WellAnswered(q, answers[q.id])
  }

  predicate HasQuestion(spec: Spec, id: string) { exists q <- spec.questions :: q.id == id }

  predicate AnswersFit(spec: Spec, answers: map<string, Answer>) {
    && (forall q <- spec.questions :: AnswerFitsAt(q, answers))
    && (forall id <- answers :: HasQuestion(spec, id))
  }

  predicate TakesNoText(q: Question) { q.mode.Confirm? || !q.allowOther }

  predicate WellEdited(q: Question, selected: seq<string>, freeform: string) {
    WellSelected(q, selected) && (TakesNoText(q) ==> freeform == "")
  }

  predicate WellFormed(spec: Spec, d: Draft) {
    && d.index < |spec.questions|
    && WellEdited(spec.questions[d.index], d.selected, d.freeform)
    && AnswersFit(spec, d.answers)
  }

  /** Questions with the same id have the same answers. */
  ghost predicate Compatible(spec: Spec) {
    forall p <- spec.questions, q <- spec.questions :: p.id == q.id ==> SameAnswers(p, q)
  }

  ghost predicate SameAnswers(p: Question, q: Question) {
    forall a :: WellAnswered(p, a) ==> WellAnswered(q, a)
  }

  lemma DistinctIdsAreCompatible(spec: Spec)
    requires DistinctIds(spec)
    ensures Compatible(spec)
  {
    forall p <- spec.questions, q <- spec.questions | p.id == q.id ensures SameAnswers(p, q) {
      var i :| 0 <= i < |spec.questions| && spec.questions[i] == p;
      var j :| 0 <= j < |spec.questions| && spec.questions[j] == q;
      assert i == j;
    }
  }

  lemma NormalizedNoted(s: string)
    requires !Blank(s)
    ensures WellNoted(true, Normalized(s))
  {
    TrimTwice(s);
  }

  lemma AnswerFits(q: Question, selected: seq<string>, freeform: string)
    requires WellEdited(q, selected, freeform) && AnswerFor(q, selected, freeform).Some?
    ensures WellAnswered(q, AnswerFor(q, selected, freeform).value)
  {
    if !Blank(freeform) { NormalizedNoted(freeform); }
  }

  lemma SaveFits(spec: Spec, i: nat, answers: map<string, Answer>, a: Answer)
    requires Compatible(spec) && i < |spec.questions| && AnswersFit(spec, answers)
    requires WellAnswered(spec.questions[i], a)
    ensures AnswersFit(spec, answers[a.questionId := a])
  {
    var after := answers[a.questionId := a];
    assert spec.questions[i].id == a.questionId;
    assert HasQuestion(spec, a.questionId);
    forall q <- spec.questions ensures AnswerFitsAt(q, after) {
      assert AnswerFitsAt(q, answers);
      if q.id == a.questionId { assert SameAnswers(spec.questions[i], q); }
    }
  }

  lemma DropFits(spec: Spec, answers: map<string, Answer>, id: string)
    requires AnswersFit(spec, answers)
    ensures AnswersFit(spec, answers - {id})
  {
    forall q <- spec.questions ensures AnswerFitsAt(q, answers - {id}) { assert AnswerFitsAt(q, answers); }
  }

  lemma LoadFits(spec: Spec, i: nat, answers: map<string, Answer>)
    requires i < |spec.questions| && AnswersFit(spec, answers)
    ensures WellFormed(spec, Load(spec, i, answers))
  {
    assert AnswerFitsAt(spec.questions[i], answers);
  }

  lemma RemoveAtKeeps(s: seq<string>, i: nat)
    requires i < |s| && NoDup(s)
    ensures NoDup(RemoveAt(s, i)) && forall x <- RemoveAt(s, i) :: x in s && x != s[i]
  {
    var r := RemoveAt(s, i);
    assert forall j :: 0 <= j < i ==> r[j] == s[j];
    assert forall j :: i <= j < |r| ==> r[j] == s[j + 1];
  }

  lemma SelectFits(q: Question, d: Draft, option: string)
    requires Accepts(q, option) && WellSelected(q, d.selected)
    ensures WellSelected(q, SelectStep(q, d, option).0.selected)
  {
    if q.mode.Multi? {
      var s := d.selected;
      if option in s {
        RemoveAtKeeps(s, IndexOf(s, option));
      } else if !Full(q, |s|) {
        NoDupSnoc(s, option);
      } else if s != [] {
        NoDupSnoc(s[1..], option);
      }
    }
  }

  lemma AdvanceFits(spec: Spec, d: Draft)
    requires WellFormed(spec, d)
    ensures WellFormed(spec, Advance(spec, d).0)
  {
    if d.index + 1 < |spec.questions| {
      LoadFits(spec, d.index + 1, d.answers);
      assert Advance(spec, d).0 == Load(spec, d.index + 1, d.answers);
    } else {
      assert Advance(spec, d).0 == d;
    }
  }

  lemma SavedStaysWellFormed(spec: Spec, d: Draft, a: Answer)
    requires Compatible(spec) && WellFormed(spec, d) && WellAnswered(spec.questions[d.index], a)
    ensures WellFormed(spec, Save(d, a))
  {
    SaveFits(spec, d.index, d.answers, a);
  }

  lemma SubmitKeeps(spec: Spec, d: Draft)
    requires Compatible(spec) && WellFormed(spec, d)
    ensures WellFormed(spec, SubmitStep(spec, spec.questions[d.index], d).0)
  {
    var q := spec.questions[d.index];
    var answer := AnswerFor(q, d.selected, d.freeform);
    if answer.Some? {
      AnswerFits(q, d.selected, d.freeform);
      SavedStaysWellFormed(spec, d, answer.value);
      AdvanceFits(spec, Save(d, answer.value));
    }
  }

  lemma RejectKeeps(spec: Spec, d: Draft)
    requires Compatible(spec) && WellFormed(spec, d)
    ensures WellFormed(spec, RejectStep(spec, spec.questions[d.index], d).0)
  {
    var q := spec.questions[d.index];
    if q.mode.Confirm? {
      var no := Answer(q.id, One("no"), Normalized(d.freeform));
      assert Normalized("") == None;
      SavedStaysWellFormed(spec, d, no);
      AdvanceFits(spec, Save(d, no));
    }
  }

  lemma SkipKeeps(spec: Spec, d: Draft)
    requires WellFormed(spec, d)
    ensures WellFormed(spec, SkipStep(spec, spec.questions[d.index], d).0)
  {
    var q := spec.questions[d.index];
    var skipped := d.(answers := d.answers - {q.id});
    DropFits(spec, d.answers, q.id);
    if CanSkip(spec, q) { AdvanceFits(spec, skipped); }
  }

  lemma BackKeeps(spec: Spec, d: Draft)
    requires Compatible(spec) && WellFormed(spec, d)
    ensures WellFormed(spec, BackStep(spec, spec.questions[d.index], d).0)
  {
    if d.index > 0 {
      var q := spec.questions[d.index];
      var answer := if q.mode.Confirm? then None else AnswerFor(q, d.selected, d.freeform);
      if answer.Some? {
        AnswerFits(q, d.selected, d.freeform);
        SavedStaysWellFormed(spec, d, answer.value);
      }
      var saved := if answer.Some? then Save(d, answer.value) else d;
      LoadFits(spec, d.index - 1, saved.answers);
      assert BackStep(spec, q, d).0 == Load(spec, d.index - 1, saved.answers);
    }
  }

  /** Every action keeps a draft well-formed. */
  lemma StepKeepsWellFormed(spec: Spec, d: Draft, action: Action)
    requires Compatible(spec) && WellFormed(spec, d)
    ensures WellFormed(spec, Step(spec, d, action).0)
  {
    var q := spec.questions[d.index];
    match action {
      case Select(option) => if Accepts(q, option) { SelectFits(q, d, option); }
      case SetFreeform(_) =>
      case Cancel =>
      case Submit => SubmitKeeps(spec, d);
      case Reject => RejectKeeps(spec, d);
      case Skip => SkipKeeps(spec, d);
      case Back => BackKeeps(spec, d);
    }
  }

  /** An action changes the saved answer of no question but the current one. */
  lemma StepChangesOneAnswer(spec: Spec, d: Draft, action: Action, id: string)
    requires d.index < |spec.questions| && id != spec.questions[d.index].id
    ensures var after := Step(spec, d, action).0.answers;
            (id in after <==> id in d.answers) && (id in after ==> after[id] == d.answers[id])
  {}

  /** Every reachable state of a wizard whose questions of the same id have the same
      answers is well-formed. */
  lemma {:induction false} ReachableWellFormed(spec: Spec, d: Draft, actions: seq<Action>)
    requires Compatible(spec) && WellFormed(spec, d)
    ensures WellFormed(spec, Run(spec, d, actions))
    decreases |actions|
  {
    if actions != [] {
      StepKeepsWellFormed(spec, d, actions[0]);
      ReachableWellFormed(spec, Step(spec, d, actions[0]).0, actions[1..]);
    }
  }

  lemma StartWellFormed(spec: Spec)
    requires spec.questions != []
    ensures WellFormed(spec, START)
  {}

  /** An action panics exactly when it selects an accepted option of a multiple
      choice whose maximum is zero while nothing is selected; in a well-formed
      state nothing ever is selected there. */
  lemma PanicsExactly(spec: Spec, d: Draft, action: Action)
    requires d.index < |spec.questions|
    ensures Step(spec, d, action).1.Panicked? <==>
            var q := spec.questions[d.index];
            && action.Select? && q.mode.Multi? && q.maxSelections == Some(0) && Accepts(q, action.option)
            && d.selected == []
    ensures var q := spec.questions[d.index];
            WellFormed(spec, d) && q.mode.Multi? && q.maxSelections == Some(0) ==> d.selected == []
  {}

  /** Submitting a question and going back restores its selection and its
      trimmed free-form text, which is empty without "other". */
  lemma SubmitThenBack(spec: Spec, d: Draft)
    requires d.index + 1 < |spec.questions|
    requires spec.questions[d.index].id != spec.questions[d.index + 1].id
    requires WellSelected(spec.questions[d.index], d.selected)
    requires AnswerFor(spec.questions[d.index], d.selected, d.freeform).Some?
    ensures var r := Run(spec, d, [Submit, Back]);
            && r.index == d.index && r.selected == d.selected
            && r.freeform == if OTHER in d.selected then Trim(d.freeform) else ""
  {
    var q := spec.questions[d.index];
    var a := AnswerFor(q, d.selected, d.freeform).value;
    var submitted := Step(spec, d, Submit).0;
    assert submitted == Load(spec, d.index + 1, d.answers[q.id := a]);
    BackLoads(spec, submitted);
    RunTwo(spec, d, Submit, Back);
  }

  lemma RunTwo(spec: Spec, d: Draft, a: Action, b: Action)
    ensures Run(spec, d, [a, b]) == Step(spec, Step(spec, d, a).0, b).0
  {
    var next := Step(spec, d, a).0;
    assert [a, b][1..] == [b] && [b][1..] == [];
    assert Run(spec, d, [a, b]) == Run(spec, next, [b]);
    assert Run(spec, next, [b]) == Run(spec, Step(spec, next, b).0, []);
  }

  lemma BackLoads(spec: Spec, d: Draft)
    requires 0 < d.index < |spec.questions|
    requires spec.questions[d.index - 1].id != spec.questions[d.index].id
    requires spec.questions[d.index - 1].id in d.answers
    ensures var back, id := Step(spec, d, Back).0, spec.questions[d.index - 1].id;
            && back == Load(spec, d.index - 1, back.answers)
            && id in back.answers && back.answers[id] == d.answers[id]
  {}
}
