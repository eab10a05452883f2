/** What the sidebar's widget maps hold after any run of syncs, with and without the
    memo, for any snapshots: a snapshot may list an id more than once. */
module SidebarRuns {
  import opened Text
  import opened Sidebar
  import opened SidebarRows
  import opened SidebarReconcile
  import opened SidebarShell

  lemma EmptyIsReconciled()
    ensures Sound(EMPTY) && ReconcileSnapshot(EMPTY, NOTHING_SYNCED) == EMPTY && RowsOf(NOTHING_SYNCED) == []
  {
    assert RowsOf(NOTHING_SYNCED) == [];
    assert EMPTY.rows.Keys - Ids([]) == {};
    RemoveNothing(EMPTY);
  }

  lemma MemoSnoc(init: seq<Snapshot>, s: Snapshot)
    ensures MemoRun(init + [s]) == MemoStep(MemoRun(init), s)
    ensures PlainRun(init + [s]) == ReconcileSnapshot(PlainRun(init), s)
  {
    assert (init + [s])[..|init|] == init;
  }

  lemma {:induction false} RunSound(snapshots: seq<Snapshot>)
    ensures Sound(MemoRun(snapshots).maps) && Sound(PlainRun(snapshots))
    ensures MemoRun(snapshots).synced == if snapshots == [] then NOTHING_SYNCED else snapshots[|snapshots| - 1]
  {
    if snapshots == [] {
      EmptyIsReconciled();
    } else {
      var init, last := snapshots[..|snapshots| - 1], snapshots[|snapshots| - 1];
      RunSound(init);
      ReconcileAt(MemoRun(init).maps, RowsOf(last));
      ReconcileAt(PlainRun(init), RowsOf(last));
    }
  }

  // ----- Keys -----

  /** Rows and kinds have exactly the listed ids; kind and host are those of the last
      row with the id. */
  ghost predicate KeysMatch(m: Maps, items: seq<Row>) {
    && m.rows.Keys == Ids(items) && m.kinds.Keys == Ids(items) && m.tools.Keys <= Ids(items)
    && (forall id <- Ids(items) :: DecidedByLast(m, items, id))
    && (forall k <- m.buttons :: exists id, s :: id in m.tools && k == ToolKey(id, s))
  }

  /** After any syncs the maps have the keys the last snapshot calls for. */
  lemma {:induction false} RunKeys(snapshots: seq<Snapshot>)
    ensures KeysMatch(MemoRun(snapshots).maps, RowsOf(MemoRun(snapshots).synced))
    ensures snapshots != [] ==> MemoRun(snapshots).synced == snapshots[|snapshots| - 1]
  {
    RunSound(snapshots);
    if snapshots == [] {
      EmptyIsReconciled();
    } else {
      var init, last := snapshots[..|snapshots| - 1], snapshots[|snapshots| - 1];
      RunKeys(init);
      RunSound(init);
      ReconciledKeys(MemoRun(init).maps, RowsOf(last));
    }
  }

  // ----- Buttons -----

  /** Snapshot `n` offers the button, and every later one keeps it. */
  ghost predicate OfferedSince(snapshots: seq<Snapshot>, n: nat, id: string, s: Suffix)
    requires n < |snapshots|
  {
    && Offers(RowsOf(snapshots[n]), id, s)
    && forall j :: n < j < |snapshots| ==> Keeps(snapshots[j], id, LastKind(snapshots[n], id))
  }

  function LastKind(s: Snapshot, id: string): Option<Kind> {
    var last := LastRow(RowsOf(s), id);
    if last.None? then None else Some(last.value.kind)
  }

  /** The snapshot lists the id, always with this kind and some tool. */
  predicate Keeps(s: Snapshot, id: string, kind: Option<Kind>) {
    LastRow(RowsOf(s), id).Some? && Steady(RowsOf(s), id, kind)
  }

  ghost predicate Offered(snapshots: seq<Snapshot>, id: string, s: Suffix) {
    exists n :: 0 <= n < |snapshots| && OfferedSince(snapshots, n, id, s)
  }

  lemma KeptKind(s: Snapshot, id: string, kind: Option<Kind>)
    requires Keeps(s, id, kind)
    ensures LastKind(s, id) == kind
  {
    LastRowIs(RowsOf(s), id);
  }

  lemma OffersLists(items: seq<Row>, id: string, s: Suffix)
    requires Offers(items, id, s)
    ensures LastRow(items, id).Some?
  {
    var i :| 0 <= i < |items| && OfferedAt(items, i, id, s);
    SteadyLast(items, i, id, Some(items[i].kind));
  }

  lemma OfferedKind(init: seq<Snapshot>, n: nat, id: string, s: Suffix)
    requires n < |init| && OfferedSince(init, n, id, s)
    ensures LastKind(init[|init| - 1], id) == LastKind(init[n], id)
  {
    if n < |init| - 1 { KeptKind(init[|init| - 1], id, LastKind(init[n], id)); }
  }

  /** A further snapshot offers its own buttons and keeps those it continues. */
  lemma OfferedOneMore(init: seq<Snapshot>, last: Snapshot, id: string, s: Suffix)
    ensures Offered(init + [last], id, s) <==>
            Offers(RowsOf(last), id, s) ||
            (init != [] && Offered(init, id, s) && Keeps(last, id, LastKind(init[|init| - 1], id)))
  {
    var all := init + [last];
    forall n | 0 <= n < |init|
      ensures OfferedSince(all, n, id, s) <==>
              OfferedSince(init, n, id, s) && Keeps(last, id, LastKind(init[|init| - 1], id))
    {
      assert forall j :: 0 <= j < |init| ==> all[j] == init[j];
      assert all[|init|] == last;
      assert OfferedSince(all, n, id, s) ==> OfferedSince(init, n, id, s);
      if OfferedSince(init, n, id, s) { OfferedKind(init, n, id, s); }
    }
    assert OfferedSince(all, |init|, id, s) <==> Offers(RowsOf(last), id, s);
    if Offered(all, id, s) {
      var n :| 0 <= n < |all| && OfferedSince(all, n, id, s);
      assert n < |init| ==> OfferedSince(init, n, id, s);
    }
    if n :| 0 <= n < |init| && OfferedSince(init, n, id, s) { assert n < |all|; }
  }

  /** After any syncs a tool button is cached exactly if some snapshot offered it and
      every snapshot since lists the row, with the same kind and some tool. */
  lemma {:induction false} ButtonsExactly(snapshots: seq<Snapshot>, id: string, s: Suffix)
    ensures ToolKey(id, s) in MemoRun(snapshots).maps.buttons <==> Offered(snapshots, id, s)
  {
    if snapshots != [] {
      var init, last := snapshots[..|snapshots| - 1], snapshots[|snapshots| - 1];
      assert snapshots == init + [last];
      ButtonsExactly(init, id, s);
      RunSound(init);
      RunKeys(init);
      OfferedOneMore(init, last, id, s);
      if MemoRun(init).synced == last {
        RepeatedOffer(init, last, id, s);
      } else {
        SyncedButton(init, last, id, s);
      }
    }
  }

  lemma RepeatedOffer(init: seq<Snapshot>, last: Snapshot, id: string, s: Suffix)
    requires if init == [] then last == NOTHING_SYNCED else init[|init| - 1] == last
    ensures Offered(init + [last], id, s) <==> Offered(init, id, s)
  {
    OfferedOneMore(init, last, id, s);
    if init == [] {
      EmptyIsReconciled();
    } else {
      var before := init[..|init| - 1];
      assert init == before + [last];
      OfferedOneMore(before, last, id, s);
      if before != [] && Keeps(last, id, LastKind(before[|before| - 1], id)) {
        KeptKind(last, id, LastKind(before[|before| - 1], id));
      }
    }
  }

  lemma SyncedButton(init: seq<Snapshot>, last: Snapshot, id: string, s: Suffix)
    requires ToolKey(id, s) in MemoRun(init).maps.buttons <==> Offered(init, id, s)
    requires Sound(MemoRun(init).maps) && KeysMatch(MemoRun(init).maps, RowsOf(MemoRun(init).synced))
    requires init != [] ==> MemoRun(init).synced == init[|init| - 1]
    ensures ToolKey(id, s) in ReconcileSnapshot(MemoRun(init).maps, last).buttons <==> Offered(init + [last], id, s)
  {
    var m := MemoRun(init).maps;
    ReconciledKeys(m, RowsOf(last));
    OfferedOneMore(init, last, id, s);
    LastRowIs(RowsOf(last), id);
    if Offers(RowsOf(last), id, s) { OffersLists(RowsOf(last), id, s); }
    if init != [] {
      CachedKind(m, RowsOf(init[|init| - 1]), id);
    }
  }

  lemma CachedKind(m: Maps, items: seq<Row>, id: string)
    requires KeysMatch(m, items)
    ensures Get(m.kinds, id) == if LastRow(items, id).None? then None else Some(LastRow(items, id).value.kind)
  {
    LastRowIs(items, id);
    assert id in Ids(items) ==> DecidedByLast(m, items, id);
  }

  // ----- The memo -----

  /** Skipping syncs on repeated inputs never changes the maps if the rows of every
      snapshot agree. */
  lemma {:induction false} MemoIsTransparent(snapshots: seq<Snapshot>)
    requires forall s <- snapshots :: Agree(RowsOf(s))
    ensures MemoRun(snapshots).maps == PlainRun(snapshots)
    ensures ReconcileSnapshot(PlainRun(snapshots), MemoRun(snapshots).synced) == PlainRun(snapshots)
  {
    if snapshots == [] {
      EmptyIsReconciled();
    } else {
      var init, last := snapshots[..|snapshots| - 1], snapshots[|snapshots| - 1];
      MemoIsTransparent(init);
      RunSound(init);
      ReconcileTwiceExactly(PlainRun(init), RowsOf(last));
    }
  }

  /** A snapshot whose rows disagree shows the memo when it is synced twice. */
  lemma MemoShows(s: Snapshot)
    ensures MemoRun([s, s]).maps == PlainRun([s, s]) <==> Agree(RowsOf(s))
  {
    EmptyIsReconciled();
    MemoSnoc([], s);
    MemoSnoc([s], s);
    assert [] + [s] == [s] && [s] + [s] == [s, s];
    ReconcileTwiceExactly(EMPTY, RowsOf(s));
  }

  ghost predicate AlwaysTransparent(allowed: iset<Snapshot>) {
    forall run: seq<Snapshot> :: (forall s <- run :: s in allowed) ==> MemoRun(run).maps == PlainRun(run)
  }

  /** The memo is invisible in all runs over some snapshots exactly if the rows of each
      of them agree. */
  lemma TransparentExactly(allowed: iset<Snapshot>)
    ensures AlwaysTransparent(allowed) <==> forall s :: s in allowed ==> Agree(RowsOf(s))
  {
    if AlwaysTransparent(allowed) {
      forall s | s in allowed ensures Agree(RowsOf(s)) {
        assert forall t <- [s, s] :: t in allowed;
        MemoShows(s);
      }
    }
    if forall s :: s in allowed ==> Agree(RowsOf(s)) {
      forall run: seq<Snapshot> | forall s <- run :: s in allowed ensures MemoRun(run).maps == PlainRun(run) {
        MemoIsTransparent(run);
      }
    }
  }

  lemma DistinctRowsAgree(s: Snapshot)
    requires DistinctSnapshot(s)
    ensures Agree(RowsOf(s))
  {
    GroupsDistinct(s);
    var items := RowsOf(s);
    forall x <- items, y <- items | x.id == y.id ensures Alike(x, y) {
      var i :| 0 <= i < |items| && items[i] == x;
      var j :| 0 <= j < |items| && items[j] == y;
      assert i == j;
    }
  }

  /** Two kinds under one id: every sync makes a new widget for it. */
  lemma TwoKindsRebuild(m: Maps, items: seq<Row>, x: Row, y: Row)
    requires Sound(m) && x in items && y in items && x.id == y.id && x.kind != y.kind
    ensures var r, r' := Reconcile(m, items), Reconcile(Reconcile(m, items), items);
            x.id in r.rows && x.id in r'.rows && r'.rows[x.id] != r.rows[x.id]
  {
    var r, id := Reconcile(m, items), x.id;
    ReconcileAt(m, items);
    ReconcileAt(r, items);
    assert id in Ids(items);
    LastRowIs(items, id);
    assert IdReconciled(m, r, items, id) && IdReconciled(r, Reconcile(r, items), items, id);
    assert RowSound(StateOf(r, id), r.next);
  }

  lemma PlainTwice(s: Snapshot)
    ensures PlainRun([s]) == ReconcileSnapshot(EMPTY, s)
    ensures PlainRun([s, s]) == ReconcileSnapshot(PlainRun([s]), s)
  {
    MemoSnoc([], s);
    MemoSnoc([s], s);
    assert [] + [s] == [s] && [s] + [s] == [s, s];
  }

  /** A list with an id under two kinds makes the memo show: without it, a second sync
      replaces the widget of that id. */
  ghost predicate Rebuilt(s: Snapshot, id: string) {
    && MemoRun([s, s]).maps != PlainRun([s, s])
    && id in PlainRun([s]).rows && id in PlainRun([s, s]).rows
    && PlainRun([s, s]).rows[id] != PlainRun([s]).rows[id]
  }

  lemma TwoKindsShow(s: Snapshot, x: Row, y: Row)
    requires x in RowsOf(s) && y in RowsOf(s) && x.id == y.id && x.kind != y.kind
    ensures Rebuilt(s, x.id)
  {
    assert !Alike(x, y);
    MemoShows(s);
    PlainTwice(s);
    EmptyIsReconciled();
    TwoKindsRebuild(EMPTY, RowsOf(s), x, y);
  }

  /** The unified list shows a running session twice, as a running row and as a task,
      and is such a list. */
  lemma RunningSessionIsRebuilt(running: Row, task: Row)
    requires running.id == task.id && running.kind.Running? && task.kind.Task?
    requires !SectionChrome(running) && running.id != "projects-header"
    ensures Rebuilt(Snapshot([running, task], [], false), task.id)
  {
    TwoRows(running, task);
    TwoKindsShow(Snapshot([running, task], [], false), task, running);
  }

  lemma TwoRows(a: Row, b: Row)
    requires !SectionChrome(a) && !SectionChrome(b) && !a.kind.DropHint? && !a.kind.Archived?
    requires !b.kind.DropHint? && !b.kind.Archived? && a.id != "projects-header" && b.id != "projects-header"
    ensures RowsOf(Snapshot([a, b], [], false)) == [a, b]
  {
    var rows, g := [a, b], Grouped(Snapshot([a, b], [], false));
    assert rows == [a] + [b] && [a] == [] + [a];
    assert rows[..1] == [a] && [a][..0] == [];
    forall bucket ensures Section(rows, g, bucket) == if bucket == InSessions then [a, b] else [] {
      SectionSnoc([], a, g, bucket);
      SectionSnoc([a], b, g, bucket);
      assert OpenBucket([a]) == InSessions by { assert [a][..0] == []; }
    }
  }

  // ----- Widgets -----

  /** In one more sync that is not skipped, the widget of a row survives exactly if it
      was there and every row with its id has its kind; any other widget is new. */
  lemma WidgetSurvives(snapshots: seq<Snapshot>, s: Snapshot, id: string)
    requires id in Ids(RowsOf(s))
    ensures var before, after := MemoRun(snapshots), MemoRun(snapshots + [s]).maps;
            && id in after.rows
            && (if before.synced == s then after == before.maps
                else id in before.maps.rows && after.rows[id] == before.maps.rows[id] <==>
                     id in before.maps.kinds && SameKind(RowsOf(s), id, Some(before.maps.kinds[id])))
            && (forall other <- before.maps.rows :: before.maps.rows[other] == after.rows[id] ==>
                  id in before.maps.rows && after.rows[id] == before.maps.rows[id])
  {
    MemoSnoc(snapshots, s);
    RunSound(snapshots);
    RunKeys(snapshots);
    RunKeys(snapshots + [s]);
    var before, items := MemoRun(snapshots), RowsOf(s);
    if before.synced != s {
      ReconcileAt(before.maps, items);
      LastRowIs(items, id);
      var after := MemoRun(snapshots + [s]).maps;
      assert IdReconciled(before.maps, after, items, id);
      forall other <- before.maps.rows ensures before.maps.rows[other] < before.maps.next {
        assert RowSound(StateOf(before.maps, other), before.maps.next);
      }
      assert RowSound(StateOf(before.maps, id), before.maps.next);
    }
  }
}
