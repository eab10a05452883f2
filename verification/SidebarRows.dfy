/** Reconciliation of sidebar rows with their widgets. */
module SidebarRows {
  import opened Text
  import opened Sidebar

  type Handle = nat

  datatype Suffix = Stop | Draft | Menu

  /** What activating a tool button asks for. */
  datatype Intent = StopTask | OpenDraft | OpenTaskMenu | OpenProjectMenu

  datatype Button = Button(handle: Handle, intent: Intent)

  function ToolKey(id: string, s: Suffix): string {
    id + (match s case Stop => "-stop" case Draft => "-draft" case Menu => "-menu")
  }

  /** Tool buttons of different rows, or of different kinds, have different keys. */
  lemma ToolKeysInjective(a: string, s: Suffix, b: string, t: Suffix)
    requires ToolKey(a, s) == ToolKey(b, t)
    ensures a == b && s == t
  {
    var k := ToolKey(a, s);
    var end := k[|k| - 1];
    assert end == match s case Stop => 'p' case Draft => 't' case Menu => 'u';
    assert end == match t case Stop => 'p' case Draft => 't' case Menu => 'u';
    assert a == k[..|a|] && b == k[..|b|];
  }

  function MenuIntent(k: Kind): Intent {
    if k.Task? || k.SearchTask? || k.Running? then OpenTaskMenu else OpenProjectMenu
  }

  predicate Wants(item: Row, s: Suffix) {
    match s
    case Stop => item.canStop && !Blank(item.id)
    case Draft => item.canDraft
    case Menu => item.canMenu
  }

  predicate WantsAny(item: Row) { Wants(item, Stop) || Wants(item, Draft) || Wants(item, Menu) }

  function IntentFor(item: Row, s: Suffix): Intent {
    match s
    case Stop => StopTask
    case Draft => OpenDraft
    case Menu => MenuIntent(item.kind)
  }

  /** The keyed maps: row widgets, their kinds, tool hosts and tool buttons. */
  datatype Maps = Maps(rows: map<string, Handle>, kinds: map<string, Kind>, tools: map<string, Handle>,
                       buttons: map<string, Button>, next: Handle)

  const EMPTY := Maps(map[], map[], map[], map[], 0)

  // ----- What the shell computes -----

  function ClearTools(m: Maps, id: string): Maps {
    m.(tools := m.tools - {id},
       buttons := m.buttons - {ToolKey(id, Stop), ToolKey(id, Draft), ToolKey(id, Menu)})
  }

  function RemoveRow(m: Maps, id: string): Maps {
    ClearTools(m.(rows := m.rows - {id}, kinds := m.kinds - {id}), id)
  }

  /** Stop buttons are plain buttons, the others icon buttons; a cached button of
      the other sort is not used. */
  predicate Usable(b: Button, s: Suffix) { b.intent.StopTask? <==> s.Stop? }

  function EnsureButton(m: Maps, item: Row, s: Suffix): Maps {
    var key := ToolKey(item.id, s);
    if !Wants(item, s) || (key in m.buttons && Usable(m.buttons[key], s)) then m
    else m.(buttons := m.buttons[key := Button(m.next, IntentFor(item, s))], next := m.next + 1)
  }

  function EnsureButtons(m: Maps, item: Row): Maps {
    EnsureButton(EnsureButton(EnsureButton(m, item, Stop), item, Draft), item, Menu)
  }

  function SyncTools(m: Maps, item: Row): Maps {
    var m := EnsureButtons(m, item);
    if !WantsAny(item) then ClearTools(m, item.id)
    else if item.id in m.tools then m
    else m.(tools := m.tools[item.id := m.next], next := m.next + 1)
  }

  /** Drops a row whose kind changed and creates a missing one. */
  function EnsureRow(m: Maps, item: Row): Maps {
    var m := if item.id in m.kinds && m.kinds[item.id] != item.kind then RemoveRow(m, item.id) else m;
    if item.id in m.rows then m
    else m.(rows := m.rows[item.id := m.next], kinds := m.kinds[item.id := item.kind], next := m.next + 1)
  }

  function SyncRow(m: Maps, item: Row): Maps { SyncTools(EnsureRow(m, item), item) }

  function SyncRows(m: Maps, items: seq<Row>): Maps {
    if items == [] then m else SyncRow(SyncRows(m, items[..|items| - 1]), items[|items| - 1])
  }

  predicate ToolKeyOf(key: string, ids: set<string>) {
    exists id, s :: id in ids && key == ToolKey(id, s)
  }

  /** Removes the rows with these ids. */
  ghost function RemoveAll(m: Maps, ids: set<string>): Maps {
    m.(rows := m.rows - ids, kinds := m.kinds - ids, tools := m.tools - ids,
       buttons := map k | k in m.buttons && !ToolKeyOf(k, ids) :: m.buttons[k])
  }

  ghost function Reconcile(m: Maps, items: seq<Row>): Maps {
    var synced := SyncRows(m, items);
    RemoveAll(synced, synced.rows.Keys - Ids(items))
  }

  // ----- What one row has in the maps -----

  datatype RowState = RowState(row: Option<Handle>, kind: Option<Kind>, tool: Option<Handle>,
                               stop: Option<Button>, draft: Option<Button>, menu: Option<Button>)
  {
    function At(s: Suffix): Option<Button> {
      match s case Stop => stop case Draft => draft case Menu => menu
    }
  }

  const ABSENT := RowState(None, None, None, None, None, None)

  function Get<V>(m: map<string, V>, k: string): Option<V> {
    if k in m then Some(m[k]) else None
  }

  function ButtonAt(m: Maps, id: string, s: Suffix): Option<Button> {
    Get(m.buttons, ToolKey(id, s))
  }

  function StateOf(m: Maps, id: string): RowState {
    RowState(Get(m.rows, id), Get(m.kinds, id), Get(m.tools, id),
             ButtonAt(m, id, Stop), ButtonAt(m, id, Draft), ButtonAt(m, id, Menu))
  }

  /** A row with its kind, a host for its tools, buttons only with a host, and
      every button asking for what its key and the row's kind say. */
  predicate RowSound(r: RowState, next: Handle) {
    && (r.row.Some? <==> r.kind.Some?)
    && (r.row.Some? ==> r.row.value < next)
    && (r.tool.Some? ==> r.row.Some?)
    && (r.stop.Some? || r.draft.Some? || r.menu.Some? ==> r.tool.Some?)
    && (r.stop.Some? ==> r.stop.value.intent == StopTask)
    && (r.draft.Some? ==> r.draft.value.intent == OpenDraft)
    && (r.menu.Some? ==> r.kind.Some? && r.menu.value.intent == MenuIntent(r.kind.value))
  }

  ghost predicate ButtonKeys(m: Maps) { forall k <- m.buttons :: exists id, s :: k == ToolKey(id, s) }

  ghost predicate Sound(m: Maps) {
    && (forall id: string :: RowSound(StateOf(m, id), m.next))
    && ButtonKeys(m)
  }

  /** What a sync makes of a row: the widget survives exactly when the row was
      there with the same kind; a wanted button is there; an unwanted one stays
      only if the row survived and still has some tool. */
  predicate Synced(r: RowState, r': RowState, item: Row, next: Handle) {
    var kept := r.kind == Some(item.kind);
    && r'.kind == Some(item.kind)
    && r'.row.Some? && (if kept then r'.row == r.row else r'.row.value >= next)
    && (r'.tool.Some? <==> WantsAny(item))
    && forall s ::
         if !WantsAny(item) then r'.At(s) == None
         else if Wants(item, s) then
           r'.At(s).Some? && r'.At(s).value.intent == IntentFor(item, s) &&
           (kept && r.At(s).Some? ==> r'.At(s) == r.At(s))
         else r'.At(s) == if kept then r.At(s) else None
  }

  /** Nothing left to do for the row. */
  predicate Settled(r: RowState, item: Row) {
    && r.row.Some? && r.kind == Some(item.kind) && (r.tool.Some? <==> WantsAny(item))
    && (forall s :: Wants(item, s) ==> r.At(s).Some? && r.At(s).value.intent == IntentFor(item, s))
    && (!WantsAny(item) ==> forall s :: r.At(s) == None)
  }

  /** The maps differ at most in the buttons of one row. */
  ghost predicate OthersKept(m: Maps, m': Maps, id: string) {
    && m'.next >= m.next && (ButtonKeys(m) ==> ButtonKeys(m'))
    && forall other, t :: other != id ==> ButtonAt(m', other, t) == ButtonAt(m, other, t)
  }

  lemma EnsureButtonAt(m: Maps, item: Row, s: Suffix)
    ensures OthersKept(m, EnsureButton(m, item, s), item.id)
    ensures EnsureButton(m, item, s).(buttons := m.buttons, next := m.next) == m
    ensures forall t :: t != s ==> ButtonAt(EnsureButton(m, item, s), item.id, t) == ButtonAt(m, item.id, t)
    ensures ButtonAt(EnsureButton(m, item, s), item.id, s) == Ensured(m, item, s)
  {
    var m' := EnsureButton(m, item, s);
    forall id, t | id != item.id || t != s
      ensures ButtonAt(m', id, t) == ButtonAt(m, id, t)
    {
      if ToolKey(id, t) == ToolKey(item.id, s) { ToolKeysInjective(id, t, item.id, s); }
    }
    forall k <- m'.buttons ensures ButtonKeys(m) ==> exists id, t :: k == ToolKey(id, t) {
      if k == ToolKey(item.id, s) {} else { assert k in m.buttons; }
    }
  }

  /** The button a row has under a suffix once its wanted buttons are ensured. */
  function Ensured(m: Maps, item: Row, s: Suffix): Option<Button> {
    var b := ButtonAt(m, item.id, s);
    if !Wants(item, s) || (b.Some? && Usable(b.value, s)) then b
    else Some(Button(m.next, IntentFor(item, s)))
  }

  /** `b` is what a cached button `a` becomes. */
  predicate BecomesButton(a: Option<Button>, b: Option<Button>, item: Row, s: Suffix) {
    if a.Some? || !Wants(item, s) then b == a else b.Some? && b.value.intent == IntentFor(item, s)
  }

  predicate SortedButtons(m: Maps, id: string) {
    forall t :: ButtonAt(m, id, t).Some? ==> Usable(ButtonAt(m, id, t).value, t)
  }

  lemma EnsureButtonsAt(m: Maps, item: Row)
    requires SortedButtons(m, item.id)
    ensures OthersKept(m, EnsureButtons(m, item), item.id)
    ensures EnsureButtons(m, item).(buttons := m.buttons, next := m.next) == m
    ensures forall t :: BecomesButton(ButtonAt(m, item.id, t), ButtonAt(EnsureButtons(m, item), item.id, t), item, t)
  {
    var a := EnsureButton(m, item, Stop);
    var b := EnsureButton(a, item, Draft);
    EnsureButtonAt(m, item, Stop);
    EnsureButtonAt(a, item, Draft);
    EnsureButtonAt(b, item, Menu);
    forall t ensures BecomesButton(ButtonAt(m, item.id, t), ButtonAt(EnsureButtons(m, item), item.id, t), item, t) {
      assert t == Stop || t == Draft || t == Menu;
    }
  }

  lemma ClearToolsAt(m: Maps, id: string)
    ensures OthersKept(m, ClearTools(m, id), id)
    ensures forall t :: ButtonAt(ClearTools(m, id), id, t) == None
  {
    forall other, t | other != id
      ensures ButtonAt(ClearTools(m, id), other, t) == ButtonAt(m, other, t)
    {
      forall u ensures ToolKey(other, t) != ToolKey(id, u) {
        if ToolKey(other, t) == ToolKey(id, u) { ToolKeysInjective(other, t, id, u); }
      }
    }
    assert forall k <- ClearTools(m, id).buttons :: k in m.buttons;
    forall t ensures ButtonAt(ClearTools(m, id), id, t) == None {
      assert t == Stop || t == Draft || t == Menu;
    }
  }

  /** Only the row `id` may differ. */
  ghost predicate OnlyRow(m: Maps, m': Maps, id: string) {
    OthersKept(m, m', id) && forall other :: other != id ==> StateOf(m', other) == StateOf(m, other)
  }

  lemma EnsureRowAt(m: Maps, item: Row)
    requires RowSound(StateOf(m, item.id), m.next)
    ensures OnlyRow(m, EnsureRow(m, item), item.id)
    ensures var r := StateOf(m, item.id);
            StateOf(EnsureRow(m, item), item.id) ==
            if r.kind == Some(item.kind) then r else ABSENT.(row := Some(m.next), kind := Some(item.kind))
  {
    var bare := m.(rows := m.rows - {item.id}, kinds := m.kinds - {item.id});
    ClearToolsAt(bare, item.id);
    assert OthersKept(m, bare, item.id);
  }

  lemma SyncToolsAt(m: Maps, item: Row)
    requires SortedButtons(m, item.id)
    ensures OnlyRow(m, SyncTools(m, item), item.id)
    ensures SyncTools(m, item).rows == m.rows && SyncTools(m, item).kinds == m.kinds
    ensures item.id in SyncTools(m, item).tools <==> WantsAny(item)
    ensures forall t :: if !WantsAny(item) then ButtonAt(SyncTools(m, item), item.id, t) == None
                        else BecomesButton(ButtonAt(m, item.id, t), ButtonAt(SyncTools(m, item), item.id, t), item, t)
  {
    EnsureButtonsAt(m, item);
    ClearToolsAt(EnsureButtons(m, item), item.id);
  }

  lemma SoundIsSorted(m: Maps, id: string)
    requires RowSound(StateOf(m, id), m.next)
    ensures SortedButtons(m, id)
  {
    forall t | ButtonAt(m, id, t).Some? ensures Usable(ButtonAt(m, id, t).value, t) {
      assert ButtonAt(m, id, t) == StateOf(m, id).At(t);
    }
  }

  /** One row synced: its own state follows the rule, no other row's changes. */
  lemma SyncRowAt(m: Maps, item: Row)
    requires RowSound(StateOf(m, item.id), m.next)
    ensures OnlyRow(m, SyncRow(m, item), item.id)
    ensures RowSound(StateOf(SyncRow(m, item), item.id), SyncRow(m, item).next)
    ensures Synced(StateOf(m, item.id), StateOf(SyncRow(m, item), item.id), item, m.next)
  {
    EnsureRowAt(m, item);
    var a := EnsureRow(m, item);
    SoundIsSorted(a, item.id);
    SyncToolsAt(a, item);
    OwnRow(m, a, SyncRow(m, item), item);
  }

  /** After a sync the row's widget and kind are there; a row that offers nothing has no
      buttons, and one that does has every button it offers, under its own key, with
      what the button asks for. */
  lemma SyncedRowShows(m: Maps, item: Row)
    requires RowSound(StateOf(m, item.id), m.next)
    ensures var r := SyncRow(m, item);
            var stop, draft, menu := item.id + "-stop", item.id + "-draft", item.id + "-menu";
            var canStop := item.canStop && !AllWhitespace(item.id);
            && item.id in r.rows && item.id in r.kinds && r.kinds[item.id] == item.kind
            && (item.id in r.tools <==> canStop || item.canDraft || item.canMenu)
            && (canStop ==> stop in r.buttons && r.buttons[stop].intent == StopTask)
            && (item.canDraft ==> draft in r.buttons && r.buttons[draft].intent == OpenDraft)
            && (item.canMenu ==>
                  menu in r.buttons &&
                  r.buttons[menu].intent ==
                    if item.kind.Task? || item.kind.SearchTask? || item.kind.Running? then OpenTaskMenu
                    else OpenProjectMenu)
            && (!canStop && !item.canDraft && !item.canMenu ==>
                  stop !in r.buttons && draft !in r.buttons && menu !in r.buttons)
  {
    SyncRowAt(m, item);
    BlankExactly(item.id);
    var r := StateOf(SyncRow(m, item), item.id);
    assert r.At(Stop) == ButtonAt(SyncRow(m, item), item.id, Stop);
    assert r.At(Draft) == ButtonAt(SyncRow(m, item), item.id, Draft);
    assert r.At(Menu) == ButtonAt(SyncRow(m, item), item.id, Menu);
  }

  lemma OwnRow(m: Maps, a: Maps, b: Maps, item: Row)
    requires m.next <= a.next <= b.next
    requires RowSound(StateOf(m, item.id), m.next) && RowSound(StateOf(a, item.id), a.next)
    requires StateOf(a, item.id) ==
             if StateOf(m, item.id).kind == Some(item.kind) then StateOf(m, item.id)
             else ABSENT.(row := Some(m.next), kind := Some(item.kind))
    requires b.rows == a.rows && b.kinds == a.kinds && (item.id in b.tools <==> WantsAny(item))
    requires forall t :: if !WantsAny(item) then ButtonAt(b, item.id, t) == None
                         else BecomesButton(ButtonAt(a, item.id, t), ButtonAt(b, item.id, t), item, t)
    ensures RowSound(StateOf(b, item.id), b.next)
    ensures Synced(StateOf(m, item.id), StateOf(b, item.id), item, m.next)
  {
    var r, ra, r' := StateOf(m, item.id), StateOf(a, item.id), StateOf(b, item.id);
    forall t ensures ToolRule(ra, r', item, t) {
      assert ra.At(t) == ButtonAt(a, item.id, t) && r'.At(t) == ButtonAt(b, item.id, t);
    }
    if r.kind == Some(item.kind) { SoundIntents(r, item, m.next); }
    RowRule(r, ra, r', item, m.next);
    RuleIsSound(ra, r', item, b.next);
  }

  predicate ToolRule(ra: RowState, r': RowState, item: Row, t: Suffix) {
    if !WantsAny(item) then r'.At(t) == None else BecomesButton(ra.At(t), r'.At(t), item, t)
  }

  lemma RowRule(r: RowState, ra: RowState, r': RowState, item: Row, next: Handle)
    requires ra == if r.kind == Some(item.kind) then r else ABSENT.(row := Some(next), kind := Some(item.kind))
    requires RowSound(r, next) && r'.row == ra.row && r'.kind == ra.kind && (r'.tool.Some? <==> WantsAny(item))
    requires forall t :: ToolRule(ra, r', item, t)
    requires forall t :: r.At(t).Some? && r.kind == Some(item.kind) ==> r.At(t).value.intent == IntentFor(item, t)
    ensures Synced(r, r', item, next)
  {
    forall s
      ensures if !WantsAny(item) then r'.At(s) == None
              else if Wants(item, s) then
                r'.At(s).Some? && r'.At(s).value.intent == IntentFor(item, s) &&
                (r.kind == Some(item.kind) && r.At(s).Some? ==> r'.At(s) == r.At(s))
              else r'.At(s) == if r.kind == Some(item.kind) then r.At(s) else None
    {
      assert ToolRule(ra, r', item, s);
    }
  }

  lemma RuleIsSound(ra: RowState, r': RowState, item: Row, next: Handle)
    requires RowSound(ra, next) && ra.kind == Some(item.kind)
    requires r'.row == ra.row && r'.kind == ra.kind && (r'.tool.Some? <==> WantsAny(item))
    requires forall t :: ToolRule(ra, r', item, t)
    ensures RowSound(r', next)
  {
    assert ToolRule(ra, r', item, Stop) && ToolRule(ra, r', item, Draft) && ToolRule(ra, r', item, Menu);
  }

  lemma SoundIntents(r: RowState, item: Row, next: Handle)
    requires RowSound(r, next) && r.kind == Some(item.kind)
    ensures forall t :: r.At(t).Some? ==> r.At(t).value.intent == IntentFor(item, t)
  {
    forall t | r.At(t).Some? ensures r.At(t).value.intent == IntentFor(item, t) {
      assert t == Stop || t == Draft || t == Menu;
    }
  }

  lemma SyncedIsSettled(r: RowState, r': RowState, item: Row, next: Handle)
    requires Synced(r, r', item, next)
    ensures Settled(r', item)
  {}

  /** A settled row is left exactly as it is. */
  lemma SettledFixed(m: Maps, item: Row)
    requires RowSound(StateOf(m, item.id), m.next) && Settled(StateOf(m, item.id), item)
    ensures SyncRow(m, item) == m
  {
    var r := StateOf(m, item.id);
    forall t ensures ButtonAt(m, item.id, t) == r.At(t) {}
    SoundIsSorted(m, item.id);
    assert EnsureRow(m, item) == m;
    assert EnsureButtons(m, item) == m;
    if !WantsAny(item) { ClearNothing(m, item.id); }
  }

  lemma ClearNothing(m: Maps, id: string)
    requires id !in m.tools && forall t :: ButtonAt(m, id, t) == None
    ensures ClearTools(m, id) == m
  {
    assert ButtonAt(m, id, Stop) == None && ButtonAt(m, id, Draft) == None && ButtonAt(m, id, Menu) == None;
    assert m.tools - {id} == m.tools;
    assert m.buttons - {ToolKey(id, Stop), ToolKey(id, Draft), ToolKey(id, Menu)} == m.buttons;
  }
}
