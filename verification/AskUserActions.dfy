/** What each action of the wizard does, in terms of the draft's fields. */
module AskUserActions {
  import opened Text
  import opened AskUser

  /** The words a question accepts: the id of an option, else its label, else its
      number, and "other" where that is allowed. */
  lemma AcceptsExactly(q: Question, word: string)
    ensures Accepts(q, word) <==>
            || (q.allowOther && word == "other")
            || exists i :: 0 <= i < |q.options| &&
                 var c := q.options[i];
                 if c.id.Some? && !AllWhitespace(c.id.value) then word == c.id.value
                 else if !AllWhitespace(c.caption) then word == c.caption
                 else word == "opt-" + Decimal(i)
  {
    var ids := OptionIds(q.options);
    forall i | 0 <= i < |q.options|
      ensures ids[i] == var c := q.options[i];
                        if c.id.Some? && !AllWhitespace(c.id.value) then c.id.value
                        else if !AllWhitespace(c.caption) then c.caption else "opt-" + Decimal(i)
    {
      var c := q.options[i];
      if c.id.Some? { BlankExactly(c.id.value); }
      BlankExactly(c.caption);
    }
    if word in ids {
      var i :| 0 <= i < |ids| && ids[i] == word;
      assert q.options[i] == q.options[i];
    }
    if i :| 0 <= i < |q.options| && ids[i] == word { assert word in ids; }
  }

  /** A choice of a single-choice question replaces the one before; only "other" keeps
      the text. */
  lemma ChosenSingle(spec: Spec, d: Draft, word: string)
    requires d.index < |spec.questions| && spec.questions[d.index].mode.Single?
    ensures Step(spec, d, Select(word)) ==
            if !Accepts(spec.questions[d.index], word) then (d, Pending)
            else (Draft(d.index, d.answers, [word], if word == "other" then d.freeform else ""), Pending)
  {}

  /** A choice of a multiple-choice question is taken back if it was made, and made last
      otherwise; when that exceeds the maximum, the oldest choice goes. */
  lemma ChosenMulti(spec: Spec, d: Draft, word: string)
    requires d.index < |spec.questions| && spec.questions[d.index].mode.Multi?
    requires Accepts(spec.questions[d.index], word)
    ensures var q, next := spec.questions[d.index], Step(spec, d, Select(word)).0;
            && next.index == d.index && next.answers == d.answers
            && next.freeform == (if word == "other" && word in d.selected then "" else d.freeform)
            && (word in d.selected ==>
                  exists i :: 0 <= i < |d.selected| && TakesOut(d.selected, i, word, next.selected))
            && (word !in d.selected ==>
                  var longer := d.selected + [word];
                  next.selected == if q.maxSelections.None? || |longer| <= q.maxSelections.value then longer
                                   else if d.selected == [] then [] else longer[1..])
  {
    if word in d.selected {
      assert TakesOut(d.selected, IndexOf(d.selected, word), word, Step(spec, d, Select(word)).0.selected);
    } else if d.selected != [] {
      assert (d.selected + [word])[1..] == d.selected[1..] + [word];
    }
  }

  /** `after` is `before` without the first occurrence of a word, which is at `i`. */
  predicate TakesOut(before: seq<string>, i: nat, word: string, after: seq<string>)
    requires i < |before|
  {
    word !in before[..i] && before[i] == word && after == before[..i] + before[i + 1..]
  }

  /** A submission goes through exactly when the question is a confirmation, or enough
      is chosen and "other" comes with a text. It saves the choices, with the trimmed
      text exactly for "other", and moves on. */
  lemma Submitted(spec: Spec, d: Draft)
    requires d.index < |spec.questions|
    ensures var q, (next, outcome) := spec.questions[d.index], Step(spec, d, Submit);
            var other := !q.mode.Confirm? && d.selected != [] &&
                         if q.mode.Single? then d.selected[0] == "other" else "other" in d.selected;
            var enough := match q.mode
                          case Confirm => true
                          case Single => d.selected != []
                          case Multi => |d.selected| >= if q.minSelections.None? then 1 else q.minSelections.value;
            var value := match q.mode
                         case Confirm => One("yes")
                         case Single => if d.selected == [] then One("") else One(d.selected[0])
                         case Multi => Several(d.selected);
            if !enough || (other && AllWhitespace(d.freeform)) then next == d && outcome == Pending
            else
              && next.answers == d.answers[q.id := Answer(q.id, value, if other then Some(Trim(d.freeform)) else None)]
              && if d.index + 1 < |spec.questions| then next.index == d.index + 1 && outcome == Pending
                 else (next.index, next.selected, next.freeform) == (d.index, d.selected, d.freeform) &&
                      outcome == Completed(next.answers, false)
  {
    BlankExactly(d.freeform);
  }

  /** Rejecting answers a confirmation with no, and nothing else. */
  lemma Rejected(spec: Spec, d: Draft)
    requires d.index < |spec.questions|
    ensures var q, (next, outcome) := spec.questions[d.index], Step(spec, d, Reject);
            if !q.mode.Confirm? then next == d && outcome == Pending
            else
              && next.answers == d.answers[q.id := Answer(q.id, One("no"), if AllWhitespace(d.freeform) then None
                                                                           else Some(Trim(d.freeform)))]
              && if d.index + 1 < |spec.questions| then next.index == d.index + 1 && outcome == Pending
                 else (next.index, next.selected, next.freeform) == (d.index, d.selected, d.freeform) &&
                      outcome == Completed(next.answers, false)
  {
    BlankExactly(d.freeform);
  }

  /** One of several questions is skipped unless that is ruled out, and then has no
      answer. */
  lemma Skipped(spec: Spec, d: Draft)
    requires d.index < |spec.questions|
    ensures var q, (next, outcome) := spec.questions[d.index], Step(spec, d, Skip);
            if |spec.questions| == 1 || q.skippable == Some(false) then next == d && outcome == Pending
            else
              && next.answers == d.answers - {q.id}
              && if d.index + 1 < |spec.questions| then next.index == d.index + 1 && outcome == Pending
                 else (next.index, next.selected, next.freeform) == (d.index, d.selected, d.freeform) &&
                      outcome == Completed(next.answers, false)
  {}

  /** Going back saves what a submission would save, except for a confirmation. */
  lemma WentBack(spec: Spec, d: Draft)
    requires d.index < |spec.questions|
    ensures var q, (next, outcome) := spec.questions[d.index], Step(spec, d, Back);
            && outcome == Pending
            && if d.index == 0 then next == d
               else next.index == d.index - 1 &&
                    next.answers == if q.mode.Confirm? then d.answers else Step(spec, d, Submit).0.answers
  {}

  /** Cancelling ends the wizard unless it may not be dismissed; the text is taken only
      while "other" is chosen. */
  lemma CancelledOrTyped(spec: Spec, d: Draft, text: string)
    requires d.index < |spec.questions|
    ensures Step(spec, d, Cancel) ==
            (d, if spec.dismissable == Some(false) then Pending else Completed(d.answers, true))
    ensures Step(spec, d, SetFreeform(text)) ==
            if spec.questions[d.index].allowOther && "other" in d.selected
            then (Draft(d.index, d.answers, d.selected, text), Pending) else (d, Pending)
  {}

  /** A question that is moved to shows its saved answer: the choice or choices where
      they fit its mode, and the text. */
  lemma SavedAnswerShown(spec: Spec, d: Draft, action: Action)
    requires d.index < |spec.questions| && Step(spec, d, action).0.index != d.index
    ensures var next := Step(spec, d, action).0;
            && next.index < |spec.questions|
            && var q := spec.questions[next.index];
            && (q.id !in next.answers ==> next.selected == [] && next.freeform == "")
            && (q.id in next.answers ==>
                  var a := next.answers[q.id];
                  && next.freeform == (if a.notes.Some? then a.notes.value else "")
                  && next.selected == if q.mode.Single? && a.value.One? then [a.value.choice]
                                      else if q.mode.Multi? && a.value.Several? then a.value.choices else [])
  {}

  /** Going back to an answered question and submitting it again restores the selection
      and the trimmed text of the question that was left. */
  lemma BackThenSubmit(spec: Spec, d: Draft)
    requires WellFormed(spec, d) && d.index > 0
    requires spec.questions[d.index - 1].id != spec.questions[d.index].id
    requires spec.questions[d.index - 1].id in d.answers
    requires AnswerFor(spec.questions[d.index], d.selected, d.freeform).Some?
    ensures var r := Run(spec, d, [Back, Submit]);
            && r.index == d.index && r.selected == d.selected
            && r.freeform == if OTHER in d.selected then Trim(d.freeform) else ""
  {
    var p, q := spec.questions[d.index - 1], spec.questions[d.index];
    var back := Step(spec, d, Back).0;
    assert AnswerFitsAt(p, d.answers) && AnswerFitsAt(q, d.answers);
    AfterBack(spec, d);
    Resubmits(p, back.answers[p.id], back.selected, back.freeform);
    AfterSubmit(spec, back);
    if !q.mode.Confirm? { Reloads(q, d.selected, d.freeform); }
    RunTwo(spec, d, Back, Submit);
  }

  /** Going back shows the answer of the question before, and keeps the one that was
      given. */
  lemma AfterBack(spec: Spec, d: Draft)
    requires 0 < d.index < |spec.questions|
    requires spec.questions[d.index - 1].id != spec.questions[d.index].id
    requires spec.questions[d.index - 1].id in d.answers
    requires AnswerFor(spec.questions[d.index], d.selected, d.freeform).Some?
    ensures var back, p, q := Step(spec, d, Back).0, spec.questions[d.index - 1], spec.questions[d.index];
            && back.index == d.index - 1 && p.id in back.answers && back.answers[p.id] == d.answers[p.id]
            && var a := back.answers[p.id];
            && back.freeform == (if a.notes.Some? then a.notes.value else "")
            && back.selected == (if p.mode.Single? && a.value.One? then [a.value.choice]
                                 else if p.mode.Multi? && a.value.Several? then a.value.choices else [])
            && if q.mode.Confirm? then back.answers == d.answers
               else q.id in back.answers &&
                    back.answers[q.id] == AnswerFor(q, d.selected, d.freeform).value
  {
    BackLoads(spec, d);
    SavedAnswerShown(spec, d, Back);
  }

  /** Submitting shows the answer of the next question, which it does not touch. */
  lemma AfterSubmit(spec: Spec, d: Draft)
    requires d.index + 1 < |spec.questions|
    requires spec.questions[d.index].id != spec.questions[d.index + 1].id
    requires AnswerFor(spec.questions[d.index], d.selected, d.freeform).Some?
    ensures var next, q := Step(spec, d, Submit).0, spec.questions[d.index + 1];
            && next.index == d.index + 1
            && (q.id !in d.answers ==> next.selected == [] && next.freeform == "")
            && (q.id in d.answers ==>
                  var a := d.answers[q.id];
                  && next.freeform == (if a.notes.Some? then a.notes.value else "")
                  && next.selected == if q.mode.Single? && a.value.One? then [a.value.choice]
                                      else if q.mode.Multi? && a.value.Several? then a.value.choices else [])
  {
    SavedAnswerShown(spec, d, Submit);
  }

  /** An answer shows the selection and the text it was made from. */
  lemma Reloads(q: Question, selected: seq<string>, freeform: string)
    requires WellSelected(q, selected) && AnswerFor(q, selected, freeform).Some? && !q.mode.Confirm?
    ensures var a := AnswerFor(q, selected, freeform).value;
            && selected == (if q.mode.Single? && a.value.One? then [a.value.choice]
                            else if q.mode.Multi? && a.value.Several? then a.value.choices else [])
            && (if a.notes.Some? then a.notes.value else "") == if OTHER in selected then Trim(freeform) else ""
  {}

  /** What a saved answer loads as can be submitted. */
  lemma Resubmits(q: Question, a: Answer, selected: seq<string>, freeform: string)
    requires WellAnswered(q, a) && freeform == (if a.notes.Some? then a.notes.value else "")
    requires selected == if q.mode.Single? && a.value.One? then [a.value.choice]
                         else if q.mode.Multi? && a.value.Several? then a.value.choices else []
    ensures AnswerFor(q, selected, freeform).Some?
  {}
}
