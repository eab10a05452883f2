/** The debug overlay of the timeline: injected events and the requests waiting for
    an answer. */
module Timeline {
  import opened Text

  const U64_MAX: nat := 0xFFFF_FFFF_FFFF_FFFF

  type TaskId = string

  datatype Action = Plan | AskUser | AskUserMulti | AskUserPreview | AskUserFlow | Permission
                  | TodoTool | Todo | Command | FileRead | FileChange

  datatype Status = RequiresAction | Success | Cancelled

  datatype Event = Event(id: string, number: nat, kind: string, summary: string, status: Status)

  datatype Pending = Pending(requestId: string, kind: string, eventId: string)

  /** The two texts read from a response, where they are strings. */
  datatype Response = Response(action: Option<string>, answer: Option<string>)

  datatype State = State(sequence: nat, events: map<TaskId, seq<Event>>, pending: map<TaskId, seq<Pending>>) {
    function EventsOf(task: TaskId): seq<Event> { if task in events then events[task] else [] }
    function PendingOf(task: TaskId): seq<Pending> { if task in pending then pending[task] else [] }
  }

  const START := State(0, map[], map[])

  const EVENT := "native-debug:event:"
  const REQUEST := "native-debug:request:"

  function EventId(n: nat): string { EVENT + Decimal(n) }

  function RequestId(n: nat): string { REQUEST + Decimal(n) }

  function Bump(sequence: nat): nat { if sequence >= U64_MAX then U64_MAX else sequence + 1 }

  /** The sequence number shown for the `n`-th event, after every real one. */
  function Overlay(n: nat): nat { if n > 10_000 then U64_MAX else U64_MAX - 10_000 + n }

  /** The kind and summary of the event, and the kind of its request when it asks. */
  function ActionSpec(action: Action): (string, string, Option<string>) {
    match action
    case Plan => ("plan", "调试计划等待确认", Some("plan_approval"))
    case AskUser => ("ask_user", "要注入哪类临时事件？", Some("ask_user"))
    case AskUserMulti => ("ask_user", "这轮调试要覆盖哪些流程？", Some("ask_user"))
    case AskUserPreview => ("ask_user", "选择一种响应模板。", Some("ask_user"))
    case AskUserFlow => ("ask_user", "先选择要验证的入口。", Some("ask_user"))
    case Permission => ("file_change", "apps/desktop/src/debug-fixture.ts", Some("tool_consent"))
    case TodoTool => ("todo_list", "已通过共享 Todo 服务写入调试待办", None)
    case Todo => ("todo_list", "确认面板已出现 · 点击预制事件 · 观察时间线渲染", None)
    case Command => ("command", "cargo test -p lilia-contracts · Contracts verified.", None)
    case FileRead => ("file_read", "crates/lilia-contracts/src/lib.rs", None)
    case FileChange => ("file_change", "apps/desktop/src/desktop.rs", None)
  }

  function ResolutionSummary(kind: string, accepted: bool, response: Response): string {
    if !accepted then "调试交互已取消"
    else if kind == "plan_approval" then
      if response.action == Some("revise") then "Debug 计划已要求修改"
      else if response.action == Some("decline") then "Debug 计划已拒绝"
      else "Debug 计划已同意"
    else if response.answer.Some? && !Blank(response.answer.value) then "调试回答：" + response.answer.value
    else "调试交互已完成"
  }

  function NewEvent(n: nat, action: Action): Event {
    var (kind, summary, asks) := ActionSpec(action);
    Event(EventId(n), Overlay(n), kind, summary, if asks.Some? then RequiresAction else Success)
  }

  /** The list of the task, created when missing, with one more item. */
  function Pushed<T>(m: map<TaskId, seq<T>>, task: TaskId, item: T): map<TaskId, seq<T>> {
    m[task := (if task in m then m[task] else []) + [item]]
  }

  function NewPending(n: nat, kind: string): Pending { Pending(RequestId(n), kind, EventId(n)) }

  function Injected(s: State, task: TaskId, action: Action): State {
    var n, asks := Bump(s.sequence), ActionSpec(action).2;
    State(n, Pushed(s.events, task, NewEvent(n, action)),
          if asks.None? then s.pending else Pushed(s.pending, task, NewPending(n, asks.value)))
  }

  /** The position of the first request with this id, or the length. */
  function FindRequest(pending: seq<Pending>, request: string): (i: nat)
    ensures i <= |pending| && (i < |pending| ==> pending[i].requestId == request)
    ensures forall j :: 0 <= j < i ==> pending[j].requestId != request
  {
    if pending == [] || pending[0].requestId == request then 0 else 1 + FindRequest(pending[1..], request)
  }

  function FindEvent(events: seq<Event>, id: string): (i: nat)
    ensures i <= |events| && (i < |events| ==> events[i].id == id)
    ensures forall j :: 0 <= j < i ==> events[j].id != id
  {
    if events == [] || events[0].id == id then 0 else 1 + FindEvent(events[1..], id)
  }

  function RemoveAt<T>(s: seq<T>, i: nat): seq<T>
    requires i < |s|
  {
    s[..i] + s[i + 1..]
  }

  function Settled(event: Event, kind: string, accepted: bool, response: Response): Event {
    event.(status := if accepted then Success else Cancelled, summary := ResolutionSummary(kind, accepted, response))
  }

  function WithSettled(events: seq<Event>, item: Pending, accepted: bool, response: Response): seq<Event> {
    var j := FindEvent(events, item.eventId);
    if j < |events| then events[j := Settled(events[j], item.kind, accepted, response)] else events
  }

  function Store<T>(m: map<TaskId, seq<T>>, task: TaskId, items: seq<T>): map<TaskId, seq<T>> {
    if items == [] then m - {task} else m[task := items]
  }

  predicate Waits(s: State, task: TaskId, request: string) {
    FindRequest(s.PendingOf(task), request) < |s.PendingOf(task)|
  }

  function Resolved(s: State, task: TaskId, request: string, accepted: bool, response: Response): State {
    var pending := s.PendingOf(task);
    var i := FindRequest(pending, request);
    if i == |pending| then s
    else
      State(s.sequence,
            if task in s.events
            then s.events[task := WithSettled(s.events[task], pending[i], accepted, response)] else s.events,
            Store(s.pending, task, RemoveAt(pending, i)))
  }

  class NativeDebugTimeline {
    var sequence: nat
    var events: map<TaskId, seq<Event>>
    var pending: map<TaskId, seq<Pending>>

    function View(): State
      reads this
    {
      State(sequence, events, pending)
    }

    constructor ()
      ensures View() == START
    {
      sequence, events, pending := 0, map[], map[];
    }

    method Inject(task: TaskId, action: Action)
      requires sequence <= U64_MAX
      modifies this
      ensures View() == Injected(old(View()), task, action) && sequence <= U64_MAX
    {
      sequence := if sequence < U64_MAX then sequence + 1 else sequence;
      var id, request := EventId(sequence), RequestId(sequence);
      var (kind, summary, asks) := ActionSpec(action);
      var event := Event(id, Overlay(sequence), kind, summary, if asks.Some? then RequiresAction else Success);
      events := Pushed(events, task, event);
      if asks.Some? {
        pending := Pushed(pending, task, Pending(request, asks.value, id));
      }
    }

    /** Answers a waiting request; false when the task has no such request. */
    method Resolve(task: TaskId, request: string, accepted: bool, response: Response) returns (found: bool)
      modifies this`events, this`pending
      ensures found == old(Waits(View(), task, request))
      ensures View() == Resolved(old(View()), task, request, accepted, response)
    {
      if task !in pending { return false; }
      var items := pending[task];
      var i := 0;
      while i < |items| && items[i].requestId != request
        invariant 0 <= i <= |items| && forall j :: 0 <= j < i ==> items[j].requestId != request
      {
        i := i + 1;
      }
      if i == |items| { return false; }
      assert i == FindRequest(items, request);
      pending := Store(pending, task, RemoveAt(items, i));
      if task in events {
        SettleEvent(task, items[i], accepted, response);
      }
      return true;
    }

    method SettleEvent(task: TaskId, item: Pending, accepted: bool, response: Response)
      requires task in events
      modifies this`events
      ensures events == old(events)[task := WithSettled(old(events)[task], item, accepted, response)]
    {
      var list := events[task];
      var j := 0;
      while j < |list| && list[j].id != item.eventId
        invariant 0 <= j <= |list| && forall k :: 0 <= k < j ==> list[k].id != item.eventId
      {
        j := j + 1;
      }
      assert j == FindEvent(list, item.eventId);
      if j < |list| {
        events := events[task := list[j := Settled(list[j], item.kind, accepted, response)]];
      }
    }
  }

  // ----- Numbers -----

  ghost function Serial(id: string): int { if |id| < |EVENT| then 0 else DecimalValue(id[|EVENT|..]) }

  lemma SerialOfEvent(n: nat)
    ensures Serial(EventId(n)) == n
  {
    assert EventId(n)[|EVENT|..] == Decimal(n);
    DecimalRoundTrip(n);
  }

  lemma RequestIdsInjective(m: nat, n: nat)
    requires RequestId(m) == RequestId(n)
    ensures m == n
  {
    assert RequestId(m)[|REQUEST|..] == Decimal(m) && RequestId(n)[|REQUEST|..] == Decimal(n);
    DecimalInjective(m, n);
  }

  /** The overlay number tells two injections apart exactly when the earlier one is
      among the first 9,999: all from the 10,000th on share the largest number. */
  lemma OverlayOrdered(m: nat, n: nat)
    requires 0 < m < n
    ensures Overlay(m) <= Overlay(n)
    ensures Overlay(m) < Overlay(n) <==> m < 10_000
  {}

  // ----- The invariant -----

  /** The event is the `Serial`-th of the first `n` injections. */
  ghost predicate Issued(e: Event, n: nat) {
    var k := Serial(e.id);
    1 <= k <= n && e.id == EventId(k) && e.number == Overlay(k)
  }

  ghost predicate AllIssued(events: seq<Event>, n: nat) {
    forall i :: 0 <= i < |events| ==> Issued(events[i], n)
  }

  ghost predicate Rising(events: seq<Event>) {
    forall i, j :: 0 <= i < j < |events| ==> Serial(events[i].id) < Serial(events[j].id)
  }

  /** The ids of the events that still require action, in order. */
  function Open(events: seq<Event>): seq<string> {
    if events == [] then []
    else
      var last := events[|events| - 1];
      Open(events[..|events| - 1]) + (if last.status == RequiresAction then [last.id] else [])
  }

  /** The event ids the requests point at, in order. */
  function Targets(pending: seq<Pending>): seq<string> {
    seq(|pending|, i requires 0 <= i < |pending| => pending[i].eventId)
  }

  /** Each request carries the number of its event. */
  ghost predicate Paired(pending: seq<Pending>) {
    forall i :: 0 <= i < |pending| ==>
                  Serial(pending[i].eventId) >= 0 && pending[i].requestId == RequestId(Serial(pending[i].eventId))
  }

  ghost predicate TaskInv(events: seq<Event>, pending: seq<Pending>, n: nat) {
    && AllIssued(events, n) && Rising(events)
    && Targets(pending) == Open(events) && Paired(pending)
  }

  ghost predicate Inv(s: State) {
    && (forall task :: TaskInv(s.EventsOf(task), s.PendingOf(task), s.sequence))
    && (forall task <- s.pending :: s.pending[task] != [])
  }

  lemma {:induction false} OpenAreEvents(events: seq<Event>, id: string)
    requires id in Open(events)
    ensures exists i :: 0 <= i < |events| && events[i].id == id && events[i].status == RequiresAction
  {
    var init := events[..|events| - 1];
    if id in Open(init) {
      OpenAreEvents(init, id);
      var i :| 0 <= i < |init| && init[i].id == id && init[i].status == RequiresAction;
      assert events[i] == init[i];
    }
  }

  lemma RisingInit(events: seq<Event>)
    requires events != [] && Rising(events)
    ensures var init, last := events[..|events| - 1], events[|events| - 1].id;
            Rising(init) && last !in Open(init) && forall i :: 0 <= i < |Open(init)| ==> Open(init)[i] != last
  {
    var init, last := events[..|events| - 1], events[|events| - 1].id;
    assert forall i :: 0 <= i < |init| ==> init[i] == events[i];
    if last in Open(init) {
      OpenAreEvents(init, last);
      assert false;
    }
  }

  /** Settling the event of the `i`-th open id takes just that id out. */
  lemma {:induction false} OpenSettled(events: seq<Event>, j: nat, e: Event, i: nat)
    requires Rising(events) && j < |events| && i < |Open(events)| && Open(events)[i] == events[j].id
    requires e.id == events[j].id && e.status != RequiresAction
    ensures Open(events[j := e]) == RemoveAt(Open(events), i)
  {
    var init, last := events[..|events| - 1], events[|events| - 1];
    RisingInit(events);
    var after := events[j := e];
    if j == |events| - 1 {
      assert after[..|after| - 1] == init;
    } else {
      assert after[..|after| - 1] == init[j := e];
      assert events[j].id != last.id by { assert Serial(events[j].id) < Serial(last.id); }
      assert init[j] == events[j];
      OpenSettled(init, j, e, i);
      RemoveFromFront(Open(init), if last.status == RequiresAction then [last.id] else [], i);
    }
  }

  lemma RemoveFromFront<T>(s: seq<T>, t: seq<T>, i: nat)
    requires i < |s|
    ensures RemoveAt(s + t, i) == RemoveAt(s, i) + t
  {}

  // ----- Every step keeps it -----

  lemma TaskTold(events: seq<Event>, pending: seq<Pending>, n: nat, e: Event)
    requires TaskInv(events, pending, n) && e.id == EventId(n + 1) && e.number == Overlay(n + 1)
    requires e.status != RequiresAction
    ensures TaskInv(events + [e], pending, n + 1)
  {
    SerialOfEvent(n + 1);
  }

  lemma TaskAsked(events: seq<Event>, pending: seq<Pending>, n: nat, e: Event, p: Pending)
    requires TaskInv(events, pending, n) && e.id == EventId(n + 1) && e.number == Overlay(n + 1)
    requires e.status == RequiresAction && p.eventId == e.id && p.requestId == RequestId(n + 1)
    ensures TaskInv(events + [e], pending + [p], n + 1)
  {
    SerialOfEvent(n + 1);
    PairedSnoc(pending, p, n + 1);
  }

  lemma PairedSnoc(pending: seq<Pending>, p: Pending, n: nat)
    requires Paired(pending) && Serial(p.eventId) == n && p.requestId == RequestId(n)
    ensures Paired(pending + [p]) && Targets(pending + [p]) == Targets(pending) + [p.eventId]
  {}

  lemma TaskInject(events: seq<Event>, pending: seq<Pending>, n: nat, action: Action)
    requires TaskInv(events, pending, n)
    ensures var asks := ActionSpec(action).2;
            TaskInv(events + [NewEvent(n + 1, action)],
                    if asks.None? then pending else pending + [NewPending(n + 1, asks.value)], n + 1)
  {
    var e, asks := NewEvent(n + 1, action), ActionSpec(action).2;
    if asks.None? {
      TaskTold(events, pending, n, e);
    } else {
      TaskAsked(events, pending, n, e, NewPending(n + 1, asks.value));
    }
  }

  lemma TaskResolve(events: seq<Event>, pending: seq<Pending>, n: nat, i: nat, accepted: bool, response: Response)
    requires TaskInv(events, pending, n) && i < |pending|
    ensures FindEvent(events, pending[i].eventId) < |events|
    ensures TaskInv(WithSettled(events, pending[i], accepted, response), RemoveAt(pending, i), n)
  {
    TargetExists(events, pending, i);
    var j := FindEvent(events, pending[i].eventId);
    var e := Settled(events[j], pending[i].kind, accepted, response);
    TaskSettle(events, pending, n, i, j, e);
    assert WithSettled(events, pending[i], accepted, response) == events[j := e];
  }

  lemma TaskSettle(events: seq<Event>, pending: seq<Pending>, n: nat, i: nat, j: nat, e: Event)
    requires TaskInv(events, pending, n) && i < |pending| && j < |events| && events[j].id == pending[i].eventId
    requires e.id == events[j].id && e.number == events[j].number && e.status != RequiresAction
    ensures TaskInv(events[j := e], RemoveAt(pending, i), n)
  {
    TargetExists(events, pending, i);
    OpenSettled(events, j, e, i);
    PairedRemoved(pending, i);
  }

  lemma TargetExists(events: seq<Event>, pending: seq<Pending>, i: nat)
    requires Targets(pending) == Open(events) && i < |pending|
    ensures |Open(events)| == |pending| && Open(events)[i] == pending[i].eventId
    ensures FindEvent(events, pending[i].eventId) < |events|
  {
    assert Targets(pending)[i] == pending[i].eventId;
    OpenAreEvents(events, pending[i].eventId);
  }

  lemma PairedRemoved(pending: seq<Pending>, i: nat)
    requires Paired(pending) && i < |pending|
    ensures Paired(RemoveAt(pending, i)) && Targets(RemoveAt(pending, i)) == RemoveAt(Targets(pending), i)
  {}

  lemma InjectedAt(s: State, task: TaskId, action: Action)
    requires s.sequence < U64_MAX
    ensures var r, n, asks := Injected(s, task, action), s.sequence + 1, ActionSpec(action).2;
            && r.sequence == n
            && r.EventsOf(task) == s.EventsOf(task) + [NewEvent(n, action)]
            && r.PendingOf(task) ==
               (if asks.None? then s.PendingOf(task) else s.PendingOf(task) + [NewPending(n, asks.value)])
            && (forall t :: t != task ==> r.EventsOf(t) == s.EventsOf(t) && r.PendingOf(t) == s.PendingOf(t))
            && ((forall t <- s.pending :: s.pending[t] != []) ==> forall t <- r.pending :: r.pending[t] != [])
  {}

  lemma InjectKeeps(s: State, task: TaskId, action: Action)
    requires Inv(s) && s.sequence < U64_MAX
    ensures Inv(Injected(s, task, action))
  {
    var r := Injected(s, task, action);
    InjectedAt(s, task, action);
    TaskInject(s.EventsOf(task), s.PendingOf(task), s.sequence, action);
    forall t | t != task ensures TaskInv(r.EventsOf(t), r.PendingOf(t), r.sequence) {}
  }

  /** Answering a waiting request removes just that request and just its event's
      need for action, and changes no other event of the task. */
  lemma ResolveExactly(s: State, task: TaskId, request: string, accepted: bool, response: Response)
    requires Inv(s) && Waits(s, task, request)
    ensures var r, i := Resolved(s, task, request, accepted, response), FindRequest(s.PendingOf(task), request);
            && r.PendingOf(task) == RemoveAt(s.PendingOf(task), i)
            && Open(r.EventsOf(task)) == RemoveAt(Open(s.EventsOf(task)), i)
            && OnlyEventDiffers(s.EventsOf(task), r.EventsOf(task), s.PendingOf(task)[i].eventId)
            && TaskInv(r.EventsOf(task), r.PendingOf(task), s.sequence)
  {
    assert TaskInv(s.EventsOf(task), s.PendingOf(task), s.sequence);
    var i := FindRequest(s.PendingOf(task), request);
    TaskResolve(s.EventsOf(task), s.PendingOf(task), s.sequence, i, accepted, response);
    ResolvedAt(s, task, request, accepted, response);
    PairedRemoved(s.PendingOf(task), i);
  }

  /** Answering changes no other task, and nothing at all when no such request waits. */
  lemma ResolveKeeps(s: State, task: TaskId, request: string, accepted: bool, response: Response)
    requires Inv(s)
    ensures var r := Resolved(s, task, request, accepted, response);
            && Inv(r) && r.sequence == s.sequence
            && (!Waits(s, task, request) ==> r == s)
            && (forall t :: t != task ==> r.EventsOf(t) == s.EventsOf(t) && r.PendingOf(t) == s.PendingOf(t))
  {
    var r := Resolved(s, task, request, accepted, response);
    if Waits(s, task, request) {
      ResolveExactly(s, task, request, accepted, response);
      ResolvedAt(s, task, request, accepted, response);
      forall t ensures TaskInv(r.EventsOf(t), r.PendingOf(t), r.sequence) {
        assert TaskInv(s.EventsOf(t), s.PendingOf(t), s.sequence);
      }
    }
  }

  ghost predicate OnlyEventDiffers(a: seq<Event>, b: seq<Event>, id: string) {
    |a| == |b| && forall k :: 0 <= k < |a| ==>
                                b[k] == a[k] || (a[k].id == b[k].id == id && b[k].status != RequiresAction)
  }

  lemma ResolvedAt(s: State, task: TaskId, request: string, accepted: bool, response: Response)
    requires Waits(s, task, request)
    ensures var r, i := Resolved(s, task, request, accepted, response), FindRequest(s.PendingOf(task), request);
            && r.PendingOf(task) == RemoveAt(s.PendingOf(task), i)
            && r.EventsOf(task) == WithSettled(s.EventsOf(task), s.PendingOf(task)[i], accepted, response)
            && r.sequence == s.sequence
            && (forall t :: t != task ==> r.EventsOf(t) == s.EventsOf(t) && r.PendingOf(t) == s.PendingOf(t))
            && ((forall t <- s.pending :: s.pending[t] != []) ==> forall t <- r.pending :: r.pending[t] != [])
  {}

  // ----- Whole runs -----

  datatype Step = Inject(task: TaskId, action: Action)
                | Resolve(task: TaskId, request: string, accepted: bool, response: Response)

  function Apply(s: State, step: Step): State {
    match step
    case Inject(task, action) => Injected(s, task, action)
    case Resolve(task, request, accepted, response) => Resolved(s, task, request, accepted, response)
  }

  function Run(s: State, steps: seq<Step>): State {
    if steps == [] then s else Apply(Run(s, steps[..|steps| - 1]), steps[|steps| - 1])
  }

  lemma {:induction false} RunKeeps(s: State, steps: seq<Step>)
    requires Inv(s) && s.sequence + |steps| <= U64_MAX
    ensures Inv(Run(s, steps)) && s.sequence <= Run(s, steps).sequence <= s.sequence + |steps|
  {
    if steps != [] {
      var init, last := steps[..|steps| - 1], steps[|steps| - 1];
      RunKeeps(s, init);
      var before := Run(s, init);
      match last
      case Inject(task, action) => InjectKeeps(before, task, action);
      case Resolve(task, request, accepted, response) =>
        ResolveKeeps(before, task, request, accepted, response);
    }
  }

  /** In every run of at most 2^64 - 1 steps, the requests waiting for a task point,
      in order, at exactly its events that require action, and carry their numbers. */
  lemma {:induction false} ReachableMatch(steps: seq<Step>, task: TaskId)
    requires |steps| <= U64_MAX
    ensures var s := Run(START, steps);
            && Inv(s)
            && Targets(s.PendingOf(task)) == Open(s.EventsOf(task))
            && Paired(s.PendingOf(task))
  {
    assert Inv(START);
    RunKeeps(START, steps);
    var s := Run(START, steps);
    assert TaskInv(s.EventsOf(task), s.PendingOf(task), s.sequence);
  }

  lemma WaitsPaired(s: State, task: TaskId, n: nat)
    requires Inv(s) && Waits(s, task, RequestId(n))
    ensures s.PendingOf(task)[FindRequest(s.PendingOf(task), RequestId(n))].eventId == EventId(n)
    ensures 1 <= n <= s.sequence && EventId(n) in Open(s.EventsOf(task))
  {
    var pending, events := s.PendingOf(task), s.EventsOf(task);
    assert TaskInv(events, pending, s.sequence);
    var i := FindRequest(pending, RequestId(n));
    var id := pending[i].eventId;
    RequestIdsInjective(n, Serial(id));
    assert Targets(pending)[i] == id && id in Open(events);
    OpenAreEvents(events, id);
    var j :| 0 <= j < |events| && events[j].id == id && events[j].status == RequiresAction;
    assert Issued(events[j], s.sequence);
  }

  ghost predicate Gone(s: State, task: TaskId, n: nat) {
    n <= s.sequence && EventId(n) !in Open(s.EventsOf(task))
  }

  lemma GoneNotWaiting(s: State, task: TaskId, n: nat)
    requires Inv(s) && Gone(s, task, n)
    ensures !Waits(s, task, RequestId(n))
  {
    if Waits(s, task, RequestId(n)) {
      WaitsPaired(s, task, n);
    }
  }

  lemma InjectStaysGone(s: State, t: TaskId, action: Action, task: TaskId, n: nat)
    requires Inv(s) && s.sequence < U64_MAX && Gone(s, task, n)
    ensures Gone(Injected(s, t, action), task, n)
  {
    InjectedAt(s, t, action);
    if t == task {
      SerialOfEvent(n);
      SerialOfEvent(s.sequence + 1);
      assert TaskInv(s.EventsOf(task), s.PendingOf(task), s.sequence);
    }
  }

  lemma ResolveStaysGone(s: State, t: TaskId, request: string, accepted: bool, response: Response, task: TaskId, n: nat)
    requires Inv(s) && Gone(s, task, n)
    ensures Gone(Resolved(s, t, request, accepted, response), task, n)
  {
    ResolveKeeps(s, t, request, accepted, response);
    if t == task && Waits(s, t, request) {
      ResolveExactly(s, t, request, accepted, response);
      NothingAdded(Open(s.EventsOf(t)), FindRequest(s.PendingOf(t), request), EventId(n));
    }
  }

  lemma NothingAdded(ids: seq<string>, i: nat, id: string)
    requires i < |ids|
    ensures id in RemoveAt(ids, i) ==> id in ids
  {}

  lemma {:induction false} RunStaysGone(s: State, steps: seq<Step>, task: TaskId, n: nat)
    requires Inv(s) && s.sequence + |steps| <= U64_MAX && Gone(s, task, n)
    ensures Gone(Run(s, steps), task, n)
  {
    if steps != [] {
      var init := steps[..|steps| - 1];
      RunKeeps(s, init);
      RunStaysGone(s, init, task, n);
      match steps[|steps| - 1]
      case Inject(t, action) => InjectStaysGone(Run(s, init), t, action, task, n);
      case Resolve(t, request, accepted, response) =>
        ResolveStaysGone(Run(s, init), t, request, accepted, response, task, n);
    }
  }

  lemma {:induction false} OpenOnce(events: seq<Event>)
    requires Rising(events)
    ensures NoDup(Open(events))
  {
    if events != [] {
      RisingInit(events);
      OpenOnce(events[..|events| - 1]);
      NoDupSnoc(Open(events[..|events| - 1]), events[|events| - 1].id);
    }
  }

  lemma RemovedIsGone(ids: seq<string>, i: nat)
    requires NoDup(ids) && i < |ids|
    ensures ids[i] !in RemoveAt(ids, i)
  {}

  lemma AnsweredIsGone(s: State, task: TaskId, n: nat, accepted: bool, response: Response)
    requires Inv(s) && Waits(s, task, RequestId(n))
    ensures Gone(Resolved(s, task, RequestId(n), accepted, response), task, n)
  {
    var pending, events := s.PendingOf(task), s.EventsOf(task);
    var i := FindRequest(pending, RequestId(n));
    WaitsPaired(s, task, n);
    ResolveExactly(s, task, RequestId(n), accepted, response);
    assert TaskInv(events, pending, s.sequence);
    OpenOnce(events);
    assert Targets(pending)[i] == EventId(n);
    RemovedIsGone(Open(events), i);
  }

  /** A request is answered at most once: whatever happens after it is answered, it
      never waits again. */
  lemma AnsweredOnce(s: State, task: TaskId, n: nat, accepted: bool, response: Response, steps: seq<Step>)
    requires Inv(s) && s.sequence + |steps| <= U64_MAX && Waits(s, task, RequestId(n))
    ensures !Waits(Run(Resolved(s, task, RequestId(n), accepted, response), steps), task, RequestId(n))
  {
    var r := Resolved(s, task, RequestId(n), accepted, response);
    AnsweredIsGone(s, task, n, accepted, response);
    ResolveKeeps(s, task, RequestId(n), accepted, response);
    RunStaysGone(r, steps, task, n);
    RunKeeps(r, steps);
    GoneNotWaiting(Run(r, steps), task, n);
  }

  /** In every reachable state, a task's events are numbered in injection order:
      strictly, except among those from the 10,000th injection on. */
  lemma OverlayRises(s: State, task: TaskId, i: nat, j: nat)
    requires Inv(s) && i < j < |s.EventsOf(task)|
    ensures var a, b := s.EventsOf(task)[i], s.EventsOf(task)[j];
            && a.id != b.id && a.number <= b.number
            && (a.number < b.number <==> a.number < U64_MAX)
            && (s.sequence <= 10_000 ==> a.number < b.number)
  {
    assert TaskInv(s.EventsOf(task), s.PendingOf(task), s.sequence);
    var a, b := s.EventsOf(task)[i], s.EventsOf(task)[j];
    assert Issued(a, s.sequence) && Issued(b, s.sequence);
    OverlayOrdered(Serial(a.id), Serial(b.id));
  }

  /** A new event's id is unused exactly while the counter is below its limit. */
  lemma FreshExactly(s: State, task: TaskId, action: Action)
    requires Inv(s) && 0 < s.sequence <= U64_MAX
    ensures var id := NewEvent(Bump(s.sequence), action).id;
            (forall k :: 1 <= k <= s.sequence ==> id != EventId(k)) <==> s.sequence < U64_MAX
  {
    forall k | 1 <= k <= s.sequence ensures EventId(k) == EventId(Bump(s.sequence)) <==> k == Bump(s.sequence) {
      SerialOfEvent(k);
      SerialOfEvent(Bump(s.sequence));
    }
  }
}
