/** The shell's sidebar: its widget maps, and syncs that are skipped when the
    inputs repeat. */
module SidebarShell {
  import opened Sidebar
  import opened SidebarReconcile
  import opened SidebarRows

  const NOTHING_SYNCED := Snapshot([], [], false)

  class ShellSidebar {
    var taskRows: map<string, Handle>
    var rowKinds: map<string, Kind>
    var rowTools: map<string, Handle>
    var rowToolButtons: map<string, Button>
    var next: Handle
    var synced: Snapshot

    function View(): Maps
      reads this
    {
      Maps(taskRows, rowKinds, rowTools, rowToolButtons, next)
    }

    constructor ()
      ensures View() == EMPTY && synced == NOTHING_SYNCED
    {
      taskRows, rowKinds, rowTools, rowToolButtons, next := map[], map[], map[], map[], 0;
      synced := NOTHING_SYNCED;
    }

    method EnsureTool(item: Row, s: Suffix)
      modifies this`rowToolButtons, this`next
      ensures View() == EnsureButton(old(View()), item, s)
    {
      if !Wants(item, s) { return; }
      var key := ToolKey(item.id, s);
      if key in rowToolButtons && Usable(rowToolButtons[key], s) { return; }
      rowToolButtons := rowToolButtons[key := Button(next, IntentFor(item, s))];
      next := next + 1;
    }

    method ClearRowTools(id: string)
      modifies this`rowTools, this`rowToolButtons
      ensures View() == ClearTools(old(View()), id)
    {
      rowTools := rowTools - {id};
      rowToolButtons := rowToolButtons - {ToolKey(id, Stop), ToolKey(id, Draft), ToolKey(id, Menu)};
    }

    method SyncRowTools(item: Row)
      modifies this`rowTools, this`rowToolButtons, this`next
      ensures View() == SyncTools(old(View()), item)
    {
      EnsureTool(item, Stop);
      EnsureTool(item, Draft);
      EnsureTool(item, Menu);
      if !WantsAny(item) {
        ClearRowTools(item.id);
      } else if item.id !in rowTools {
        rowTools := rowTools[item.id := next];
        next := next + 1;
      }
    }

    method RemoveSidebarRow(id: string)
      modifies this`taskRows, this`rowKinds, this`rowTools, this`rowToolButtons
      ensures View() == RemoveRow(old(View()), id)
    {
      rowKinds := rowKinds - {id};
      taskRows := taskRows - {id};
      ClearRowTools(id);
    }

    /** The widget of a row, created anew if it is missing or of another kind. */
    method EnsureSidebarRow(item: Row)
      modifies this`taskRows, this`rowKinds, this`rowTools, this`rowToolButtons, this`next
      ensures View() == EnsureRow(old(View()), item)
    {
      if item.id in rowKinds && rowKinds[item.id] != item.kind { RemoveSidebarRow(item.id); }
      if item.id !in taskRows {
        taskRows := taskRows[item.id := next];
        rowKinds := rowKinds[item.id := item.kind];
        next := next + 1;
      }
    }

    method SyncSidebarRow(item: Row)
      modifies this`taskRows, this`rowKinds, this`rowTools, this`rowToolButtons, this`next
      ensures View() == SyncRow(old(View()), item)
    {
      EnsureSidebarRow(item);
      SyncRowTools(item);
    }

    method SyncSidebarRowGroup(items: seq<Row>, keep: set<string>) returns (kept: set<string>)
      modifies this`taskRows, this`rowKinds, this`rowTools, this`rowToolButtons, this`next
      ensures View() == SyncRows(old(View()), items) && kept == keep + Ids(items)
    {
      kept := keep;
      ghost var before := View();
      for i := 0 to |items|
        invariant View() == SyncRows(before, items[..i]) && kept == keep + Ids(items[..i])
      {
        OneMoreItem(before, items, i);
        kept := kept + {items[i].id};
        SyncSidebarRow(items[i]);
      }
      assert items[..|items|] == items;
    }

    method RemoveStaleRows(keep: set<string>)
      modifies this`taskRows, this`rowKinds, this`rowTools, this`rowToolButtons
      ensures View() == RemoveAll(old(View()), old(taskRows).Keys - keep)
    {
      ghost var before := View();
      var stale := taskRows.Keys - keep;
      ghost var done: set<string> := {};
      RemoveNothing(before);
      while stale != {}
        invariant done + stale == before.rows.Keys - keep
        invariant View() == RemoveAll(before, done)
        decreases stale
      {
        var id :| id in stale;
        stale := stale - {id};
        RemoveOneMore(before, done, id);
        done := done + {id};
        RemoveSidebarRow(id);
      }
      assert done == before.rows.Keys - keep;
    }

    method SyncGroups(groups: Groups) returns (keep: set<string>)
      modifies this`taskRows, this`rowKinds, this`rowTools, this`rowToolButtons, this`next
      ensures View() == SyncRows(old(View()), AllRows(groups)) && keep == Ids(AllRows(groups))
    {
      keep := SyncSidebarRowGroup(groups.sessions, {});
      keep := SyncSidebarRowGroup(groups.projects, keep);
      keep := SyncSidebarRowGroup(groups.inbox, keep);
      GroupsInTurn(old(View()), groups);
      IdsOfGroups(groups);
    }

    method ReconcileTaskRows(groups: Groups)
      modifies this`taskRows, this`rowKinds, this`rowTools, this`rowToolButtons, this`next
      ensures View() == Reconcile(old(View()), AllRows(groups))
    {
      var keep := SyncGroups(groups);
      RemoveStaleRows(keep);
    }

    /** Syncs the rows unless the inputs equal those of the last sync. */
    method SyncLists(snapshot: Snapshot)
      modifies this
      ensures Memo(View(), synced) == MemoStep(Memo(old(View()), old(synced)), snapshot)
    {
      if synced != snapshot {
        var groups := PartitionRows(snapshot);
        ReconcileTaskRows(groups);
        synced := snapshot;
      }
    }
  }

  lemma {:induction false} SyncRowsAppend(m: Maps, a: seq<Row>, b: seq<Row>)
    ensures SyncRows(SyncRows(m, a), b) == SyncRows(m, a + b)
  {
    if b == [] {
      assert a + b == a;
    } else {
      var init, last := b[..|b| - 1], b[|b| - 1];
      assert (a + b)[..|a + b| - 1] == a + init && (a + b)[|a + b| - 1] == last;
      SyncRowsAppend(m, a, init);
    }
  }

  lemma SyncRowsSnoc(m: Maps, items: seq<Row>, last: Row)
    ensures SyncRows(m, items + [last]) == SyncRow(SyncRows(m, items), last)
  {
    assert (items + [last])[..|items|] == items;
  }

  lemma OneMoreItem(m: Maps, items: seq<Row>, i: nat)
    requires i < |items|
    ensures SyncRows(m, items[..i + 1]) == SyncRow(SyncRows(m, items[..i]), items[i])
    ensures Ids(items[..i + 1]) == Ids(items[..i]) + {items[i].id}
  {
    assert items[..i + 1] == items[..i] + [items[i]];
    DistinctSnoc(items[..i], items[i]);
    SyncRowsSnoc(m, items[..i], items[i]);
  }

  lemma GroupsInTurn(m: Maps, g: Groups)
    ensures SyncRows(SyncRows(SyncRows(m, g.sessions), g.projects), g.inbox) == SyncRows(m, AllRows(g))
  {
    SyncRowsAppend(m, g.sessions, g.projects);
    SyncRowsAppend(m, g.sessions + g.projects, g.inbox);
  }

  lemma IdsOfGroups(g: Groups)
    ensures Ids(AllRows(g)) == {} + Ids(g.sessions) + Ids(g.projects) + Ids(g.inbox)
  {
    forall r: Row ensures r in AllRows(g) <==> r in g.sessions || r in g.projects || r in g.inbox {}
  }

  lemma RemoveOneMore(m: Maps, ids: set<string>, id: string)
    ensures RemoveRow(RemoveAll(m, ids), id) == RemoveAll(m, ids + {id})
  {
    forall k ensures ToolKeyOf(k, ids + {id}) <==> ToolKeyOf(k, ids) || ToolKeyOf(k, {id}) {}
    forall k ensures ToolKeyOf(k, {id}) <==> k in {ToolKey(id, Stop), ToolKey(id, Draft), ToolKey(id, Menu)} {
      if ToolKeyOf(k, {id}) {
        var a, s :| a in {id} && k == ToolKey(a, s);
        assert s == Stop || s == Draft || s == Menu;
      }
    }
    var left, right := RemoveRow(RemoveAll(m, ids), id), RemoveAll(m, ids + {id});
    assert left.rows == right.rows && left.kinds == right.kinds && left.tools == right.tools;
    assert left.buttons == right.buttons;
  }

  // ----- Runs -----

  datatype Memo = Memo(maps: Maps, synced: Snapshot)

  function RowsOf(s: Snapshot): seq<Row> { AllRows(GroupsOf(s)) }

  ghost function ReconcileSnapshot(m: Maps, s: Snapshot): Maps { Reconcile(m, RowsOf(s)) }

  ghost function MemoStep(s: Memo, snapshot: Snapshot): Memo {
    if s.synced == snapshot then s else Memo(ReconcileSnapshot(s.maps, snapshot), snapshot)
  }

  ghost function MemoRun(snapshots: seq<Snapshot>): Memo {
    if snapshots == [] then Memo(EMPTY, NOTHING_SYNCED)
    else MemoStep(MemoRun(snapshots[..|snapshots| - 1]), snapshots[|snapshots| - 1])
  }

  /** The same syncs without the memo. */
  ghost function PlainRun(snapshots: seq<Snapshot>): Maps {
    if snapshots == [] then EMPTY
    else ReconcileSnapshot(PlainRun(snapshots[..|snapshots| - 1]), snapshots[|snapshots| - 1])
  }
}
