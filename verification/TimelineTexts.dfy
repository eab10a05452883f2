/** What the overlay shows of an injected event and of an answered request. */
module TimelineTexts {
  import opened Text
  import opened Timeline

  /** An injection appends one event with the next number, which asks exactly for plans,
      questions and permissions; the request it then waits with points at the event. */
  lemma InjectedShows(s: State, task: TaskId, action: Action)
    requires s.sequence <= U64_MAX
    ensures var r := Injected(s, task, action);
            var n := if s.sequence < 0xFFFF_FFFF_FFFF_FFFF then s.sequence + 1 else s.sequence;
            var question := action.AskUser? || action.AskUserMulti? || action.AskUserPreview? || action.AskUserFlow?;
            var asks := action.Plan? || question || action.Permission?;
            && r.sequence == n
            && |r.EventsOf(task)| == |s.EventsOf(task)| + 1 && s.EventsOf(task) <= r.EventsOf(task)
            && (var e := r.EventsOf(task)[|s.EventsOf(task)|];
                && e.id == "native-debug:event:" + Decimal(n)
                && e.number == (if n <= 10_000 then 0xFFFF_FFFF_FFFF_FFFF - 10_000 + n else 0xFFFF_FFFF_FFFF_FFFF)
                && e.status == (if asks then RequiresAction else Success)
                && (question <==> e.kind == "ask_user") && (action.Plan? <==> e.kind == "plan")
                && (action.Permission? || action.FileChange? <==> e.kind == "file_change")
                && (action.Todo? || action.TodoTool? <==> e.kind == "todo_list")
                && (action.Command? <==> e.kind == "command") && (action.FileRead? <==> e.kind == "file_read"))
            && (!asks ==> r.PendingOf(task) == s.PendingOf(task))
            && (asks ==>
                  && |r.PendingOf(task)| == |s.PendingOf(task)| + 1 && s.PendingOf(task) <= r.PendingOf(task)
                  && var p := r.PendingOf(task)[|s.PendingOf(task)|];
                     && p.requestId == "native-debug:request:" + Decimal(n)
                     && p.eventId == "native-debug:event:" + Decimal(n)
                     && p.kind == if action.Plan? then "plan_approval" else if question then "ask_user"
                                  else "tool_consent")
  {
    KindsDiffer();
  }

  lemma KindsDiffer()
    ensures NoDup(["plan", "ask_user", "file_change", "todo_list", "command", "file_read"])
  {
    var kinds := ["plan", "ask_user", "file_change", "todo_list", "command", "file_read"];
    assert |kinds[0]| == 4 && |kinds[1]| == 8 && |kinds[2]| == 11 && |kinds[3]| == 9 && |kinds[4]| == 7;
    assert kinds[5][0] == 'f' && kinds[3][0] == 't' && |kinds[5]| == 9;
  }

  /** What an answer is summed up as. */
  lemma AnswersSummed(kind: string, response: Response)
    ensures ResolutionSummary(kind, false, response) == "调试交互已取消"
    ensures kind == "plan_approval" ==>
              ResolutionSummary(kind, true, response) ==
              match response.action
              case Some("revise") => "Debug 计划已要求修改"
              case Some("decline") => "Debug 计划已拒绝"
              case _ => "Debug 计划已同意"
    ensures kind != "plan_approval" ==>
              ResolutionSummary(kind, true, response) ==
              if response.answer.None? || AllWhitespace(response.answer.value) then "调试交互已完成"
              else "调试回答：" + response.answer.value
  {
    if response.answer.Some? { BlankExactly(response.answer.value); }
  }

  /** Answering a request shows its event as done or cancelled, with the summary, and
      changes nothing else of any event. */
  lemma AnswerShown(s: State, task: TaskId, request: string, accepted: bool, response: Response)
    requires Inv(s) && Waits(s, task, request)
    ensures var r, events := Resolved(s, task, request, accepted, response), s.EventsOf(task);
            exists i, j :: 0 <= i < |s.PendingOf(task)| && 0 <= j < |events| &&
              AnsweredAt(s.PendingOf(task)[i], request, events[j]) &&
              r.EventsOf(task) ==
              events[j := Event(events[j].id, events[j].number, events[j].kind,
                                ResolutionSummary(s.PendingOf(task)[i].kind, accepted, response),
                                if accepted then Success else Cancelled)]
  {
    var i := FindRequest(s.PendingOf(task), request);
    var p, events := s.PendingOf(task)[i], s.EventsOf(task);
    assert TaskInv(events, s.PendingOf(task), s.sequence);
    ResolvedAt(s, task, request, accepted, response);
    TargetExists(events, s.PendingOf(task), i);
    var j := FindEvent(events, p.eventId);
    assert AnsweredAt(p, request, events[j]);
  }

  /** The request has this id, and points at the event. */
  predicate AnsweredAt(p: Pending, request: string, e: Event) { p.requestId == request && p.eventId == e.id }
}
