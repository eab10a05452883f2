/** Reconciliation of a whole list of rows, in which an id may be repeated. */
module SidebarReconcile {
  import opened Text
  import opened Sidebar
  import opened SidebarRows

  // ----- What a list of rows says of an id -----

  /** The last row with the id. */
  function LastRow(items: seq<Row>, id: string): Option<Row> {
    if items == [] then None
    else
      var last := items[|items| - 1];
      if last.id == id then Some(last) else LastRow(items[..|items| - 1], id)
  }

  /** Every row with the id has this kind. */
  predicate SameKind(items: seq<Row>, id: string, kind: Option<Kind>) {
    forall x <- items :: x.id == id ==> Some(x.kind) == kind
  }

  /** Every row with the id has this kind and wants some tool. */
  predicate Steady(items: seq<Row>, id: string, kind: Option<Kind>) {
    forall x <- items :: x.id == id ==> Some(x.kind) == kind && WantsAny(x)
  }

  /** The row at `i` wants the tool, and no later row with its id takes it away. */
  predicate OfferedAt(items: seq<Row>, i: nat, id: string, s: Suffix)
    requires i < |items|
  {
    items[i].id == id && Wants(items[i], s) && Steady(items[i..], id, Some(items[i].kind))
  }

  predicate Offers(items: seq<Row>, id: string, s: Suffix) {
    exists i :: 0 <= i < |items| && OfferedAt(items, i, id, s)
  }

  /** Rows with the same id have the same kind, and all or none of them want tools. */
  predicate Agree(items: seq<Row>) {
    forall x <- items, y <- items :: x.id == y.id ==> Alike(x, y)
  }

  predicate Alike(x: Row, y: Row) { x.kind == y.kind && (WantsAny(x) <==> WantsAny(y)) }

  lemma {:induction false} LastRowIs(items: seq<Row>, id: string)
    ensures LastRow(items, id).Some? <==> id in Ids(items)
    ensures LastRow(items, id).Some? ==> LastRow(items, id).value in items && LastRow(items, id).value.id == id
  {
    if items != [] {
      var init, last := items[..|items| - 1], items[|items| - 1];
      assert items == init + [last];
      DistinctSnoc(init, last);
      LastRowIs(init, id);
    }
  }

  lemma LastRowSnoc(init: seq<Row>, x: Row, id: string)
    ensures LastRow(init + [x], id) == if x.id == id then Some(x) else LastRow(init, id)
  {
    assert (init + [x])[..|init|] == init;
  }

  lemma {:induction false} SteadyLast(items: seq<Row>, i: nat, id: string, kind: Option<Kind>)
    requires i < |items| && items[i].id == id && Steady(items[i..], id, kind)
    ensures LastRow(items, id).Some? && Some(LastRow(items, id).value.kind) == kind
  {
    var init, last := items[..|items| - 1], items[|items| - 1];
    assert last in items[i..];
    if last.id != id {
      assert forall x <- init[i..] :: x in items[i..];
      SteadyLast(init, i, id, kind);
    }
  }

  lemma SteadySnoc(init: seq<Row>, x: Row, id: string, kind: Option<Kind>)
    ensures Steady(init + [x], id, kind) <==>
            Steady(init, id, kind) && (x.id == id ==> Some(x.kind) == kind && WantsAny(x))
    ensures SameKind(init + [x], id, kind) <==> SameKind(init, id, kind) && (x.id == id ==> Some(x.kind) == kind)
  {
    assert forall y :: y in init + [x] <==> y in init || y == x;
  }

  lemma OfferedSnoc(init: seq<Row>, x: Row, i: nat, id: string, s: Suffix)
    requires i < |init|
    ensures OfferedAt(init + [x], i, id, s) <==>
            OfferedAt(init, i, id, s) && (x.id == id ==> x.kind == init[i].kind && WantsAny(x))
  {
    assert (init + [x])[i..] == init[i..] + [x];
    SteadySnoc(init[i..], x, id, Some(init[i].kind));
  }

  lemma OffersLast(init: seq<Row>, x: Row, s: Suffix)
    ensures OfferedAt(init + [x], |init|, x.id, s) <==> Wants(x, s)
  {
    assert (init + [x])[|init|..] == [x];
  }

  /** A further row offers its own tools, and keeps those of a row it continues. */
  lemma OffersSnoc(init: seq<Row>, x: Row, id: string, s: Suffix)
    ensures Offers(init + [x], id, s) <==>
            if x.id != id then Offers(init, id, s)
            else Wants(x, s) || (Offers(init, id, s) && Continues(init, x))
  {
    var all := init + [x];
    OffersLast(init, x, s);
    forall i | 0 <= i < |init|
      ensures OfferedAt(all, i, id, s) <==>
              OfferedAt(init, i, id, s) && (x.id == id ==> Continues(init, x))
    {
      OfferedSnoc(init, x, i, id, s);
      if OfferedAt(init, i, id, s) { SteadyLast(init, i, id, Some(init[i].kind)); }
    }
    if Offers(all, id, s) {
      var i :| 0 <= i < |all| && OfferedAt(all, i, id, s);
      assert i < |init| ==> OfferedAt(init, i, id, s);
    }
    if i :| 0 <= i < |init| && OfferedAt(init, i, id, s) { assert i < |all|; }
    assert Wants(x, s) ==> x.id == id ==> OfferedAt(all, |init|, id, s);
  }

  /** The row keeps the buttons of the last row with its id. */
  predicate Continues(init: seq<Row>, x: Row) {
    WantsAny(x) && LastRow(init, x.id).Some? && LastRow(init, x.id).value.kind == x.kind
  }

  // ----- Syncing all rows -----

  /** What the rows make of the state of an id. The last one decides; the widget
      survives exactly when no row has another kind, and a button is there exactly
      when a row offers it or no row takes it away. */
  predicate Followed(r: RowState, r': RowState, items: seq<Row>, id: string, next: Handle) {
    && LastRow(items, id).Some? && Settled(r', LastRow(items, id).value)
    && (if r.kind.Some? && SameKind(items, id, r.kind) then r'.row == r.row else r'.row.value >= next)
    && forall s :: ButtonRule(r, r', items, id, s)
  }

  predicate ButtonRule(r: RowState, r': RowState, items: seq<Row>, id: string, s: Suffix) {
    r'.At(s).Some? <==> Offers(items, id, s) || (r.At(s).Some? && Steady(items, id, r.kind))
  }

  lemma {:induction false} NoRow(items: seq<Row>, id: string)
    requires LastRow(items, id).None?
    ensures forall x <- items :: x.id != id
    ensures forall s :: !Offers(items, id, s)
  {
    LastRowIs(items, id);
    forall x <- items ensures x.id != id { assert x.id in Ids(items); }
  }

  lemma OneMoreButton(r: RowState, a: RowState, b: RowState, init: seq<Row>, x: Row, s: Suffix, next: Handle)
    requires if LastRow(init, x.id).None? then a == r
             else a.kind == Some(LastRow(init, x.id).value.kind) && ButtonRule(r, a, init, x.id, s)
    requires Synced(a, b, x, next) && (r.At(s).Some? ==> r.kind.Some?)
    ensures ButtonRule(r, b, init + [x], x.id, s)
  {
    var id := x.id;
    OffersSnoc(init, x, id, s);
    SteadySnoc(init, x, id, r.kind);
    assert Wants(x, s) ==> WantsAny(x);
    assert b.At(s).Some? <==> Wants(x, s) || (a.At(s).Some? && a.kind == Some(x.kind) && WantsAny(x));
    if LastRow(init, id).None? {
      NoRow(init, id);
    } else if r.At(s).Some? && Steady(init, id, r.kind) {
      LastRowIs(init, id);
    }
  }

  lemma OneMoreRow(r: RowState, a: RowState, b: RowState, init: seq<Row>, x: Row, next: Handle, next': Handle)
    requires RowSound(r, next) && RowSound(a, next') && next <= next' && Synced(a, b, x, next')
    requires if LastRow(init, x.id).None? then a == r else Followed(r, a, init, x.id, next)
    ensures Followed(r, b, init + [x], x.id, next)
  {
    SyncedIsSettled(a, b, x, next');
    LastRowSnoc(init, x, x.id);
    SteadySnoc(init, x, x.id, r.kind);
    forall s ensures ButtonRule(r, b, init + [x], x.id, s) {
      assert s == Stop || s == Draft || s == Menu;
      OneMoreButton(r, a, b, init, x, s, next');
    }
    if LastRow(init, x.id).None? { NoRow(init, x.id); } else { LastRowIs(init, x.id); }
  }

  ghost predicate AllFollowed(m: Maps, m': Maps, items: seq<Row>) {
    forall id: string :: IdFollowed(m, m', items, id)
  }

  ghost predicate IdFollowed(m: Maps, m': Maps, items: seq<Row>, id: string) {
    if LastRow(items, id).None? then StateOf(m', id) == StateOf(m, id)
    else Followed(StateOf(m, id), StateOf(m', id), items, id, m.next)
  }

  lemma OtherRow(m: Maps, a: Maps, b: Maps, init: seq<Row>, x: Row, id: string)
    requires IdFollowed(m, a, init, id) && x.id != id && StateOf(b, id) == StateOf(a, id)
    ensures IdFollowed(m, b, init + [x], id)
  {
    LastRowSnoc(init, x, id);
    SteadySnoc(init, x, id, StateOf(m, id).kind);
    forall s
      ensures Followed(StateOf(m, id), StateOf(a, id), init, id, m.next) ==>
                ButtonRule(StateOf(m, id), StateOf(b, id), init + [x], id, s)
    {
      assert Followed(StateOf(m, id), StateOf(a, id), init, id, m.next) ==>
          ButtonRule(StateOf(m, id), StateOf(a, id), init, id, s);
      OffersSnoc(init, x, id, s);
    }
  }

  lemma SyncKeepsSound(m: Maps, item: Row)
    requires Sound(m)
    ensures Sound(SyncRow(m, item)) && SyncRow(m, item).next >= m.next
  {
    SyncRowAt(m, item);
    var after := SyncRow(m, item);
    forall id: string ensures RowSound(StateOf(after, id), after.next) {
      if id != item.id { assert StateOf(after, id) == StateOf(m, id); }
    }
  }

  lemma {:induction false} SyncRowsAt(m: Maps, items: seq<Row>)
    requires Sound(m)
    ensures Sound(SyncRows(m, items)) && SyncRows(m, items).next >= m.next
    ensures AllFollowed(m, SyncRows(m, items), items)
  {
    if items != [] {
      var init, x := items[..|items| - 1], items[|items| - 1];
      assert items == init + [x];
      SyncRowsAt(m, init);
      var a := SyncRows(m, init);
      SyncRowAt(a, x);
      SyncKeepsSound(a, x);
      var b := SyncRow(a, x);
      forall id: string ensures IdFollowed(m, b, items, id) {
        assert IdFollowed(m, a, init, id);
        if id != x.id {
          OtherRow(m, a, b, init, x, id);
        } else {
          LastRowSnoc(init, x, id);
          OneMoreRow(StateOf(m, id), StateOf(a, id), StateOf(b, id), init, x, m.next, a.next);
        }
      }
    }
  }

  lemma RemoveAllAt(m: Maps, ids: set<string>, id: string)
    requires RowSound(StateOf(m, id), m.next)
    ensures StateOf(RemoveAll(m, ids), id) == if id in ids then ABSENT else StateOf(m, id)
  {
    forall s ensures ToolKeyOf(ToolKey(id, s), ids) <==> id in ids {
      if a, t :| a in ids && ToolKey(id, s) == ToolKey(a, t) { ToolKeysInjective(id, s, a, t); }
    }
  }

  /** After reconciling, every listed id follows its rows and nothing is left of any
      other id. */
  lemma ReconcileAt(m: Maps, items: seq<Row>)
    requires Sound(m)
    ensures Sound(Reconcile(m, items)) && Reconcile(m, items).next >= m.next
    ensures forall id: string :: IdReconciled(m, Reconcile(m, items), items, id)
  {
    SyncRowsAt(m, items);
    var a := SyncRows(m, items);
    var stale := a.rows.Keys - Ids(items);
    forall id: string
      ensures RowSound(StateOf(RemoveAll(a, stale), id), a.next)
      ensures IdReconciled(m, RemoveAll(a, stale), items, id)
    {
      assert IdFollowed(m, a, items, id) && RowSound(StateOf(a, id), a.next);
      LastRowIs(items, id);
      RemoveAllAt(a, stale, id);
    }
  }

  ghost predicate IdReconciled(m: Maps, m': Maps, items: seq<Row>, id: string) {
    if LastRow(items, id).None? then StateOf(m', id) == ABSENT
    else Followed(StateOf(m, id), StateOf(m', id), items, id, m.next)
  }

  lemma RemoveNothing(m: Maps)
    ensures RemoveAll(m, {}) == m
  {
    assert forall k <- m.buttons :: !ToolKeyOf(k, {});
    assert RemoveAll(m, {}).buttons == m.buttons;
    assert m.rows - {} == m.rows && m.kinds - {} == m.kinds && m.tools - {} == m.tools;
  }

  lemma {:induction false} AllSettledFixed(m: Maps, items: seq<Row>)
    requires Sound(m) && forall i :: 0 <= i < |items| ==> Settled(StateOf(m, items[i].id), items[i])
    ensures SyncRows(m, items) == m
  {
    if items != [] {
      var init, last := items[..|items| - 1], items[|items| - 1];
      AllSettledFixed(m, init);
      SettledFixed(m, last);
    }
  }

  // ----- Reconciling twice -----

  /** A step that creates nothing finds its row, and its host if it wants tools. */
  lemma NothingCreated(m: Maps, item: Row)
    requires Sound(m) && SyncRow(m, item).next == m.next
    ensures var r, r' := StateOf(m, item.id), StateOf(SyncRow(m, item), item.id);
            && r.kind == r'.kind == Some(item.kind)
            && (WantsAny(item) ==> r.tool.Some?) && (r'.tool.Some? <==> WantsAny(item))
  {
    assert RowSound(StateOf(m, item.id), m.next);
    SyncRowAt(m, item);
    var r' := StateOf(SyncRow(m, item), item.id);
    assert RowSound(r', SyncRow(m, item).next);
    assert StateOf(m, item.id).kind == Some(item.kind);
    assert EnsureRow(m, item) == m;
    SoundIsSorted(m, item.id);
    EnsureButtonsAt(m, item);
  }

  /** The kinds agree with `m`, and hosts were not created. */
  predicate HostsOnlyGo(r: RowState, r': RowState, items: seq<Row>, id: string) {
    && r'.kind == r.kind && SameKind(items, id, r.kind)
    && (r'.tool.Some? ==> r.tool.Some? && Steady(items, id, r.kind)) // no host came back after it went
    && (r.tool.None? ==> forall x <- items :: x.id == id ==> !WantsAny(x))
  }

  lemma {:induction false} NothingCreatedInAll(m: Maps, items: seq<Row>, id: string)
    requires Sound(m) && SyncRows(m, items).next == m.next && RowSound(StateOf(m, id), m.next)
    requires StateOf(m, id).kind.Some?
    ensures HostsOnlyGo(StateOf(m, id), StateOf(SyncRows(m, items), id), items, id)
  {
    if items != [] {
      var init, x := items[..|items| - 1], items[|items| - 1];
      assert items == init + [x];
      SyncRowsAt(m, init);
      var a := SyncRows(m, init);
      SyncKeepsSound(a, x);
      NothingCreatedInAll(m, init, id);
      SyncRowAt(a, x);
      if x.id == id { NothingCreated(a, x); }
      OneMoreHost(StateOf(m, id), StateOf(a, id), StateOf(SyncRow(a, x), id), init, x, id);
    }
  }

  lemma OneMoreHost(r: RowState, a: RowState, b: RowState, init: seq<Row>, x: Row, id: string)
    requires HostsOnlyGo(r, a, init, id)
    requires if x.id != id then b == a
             else a.kind == b.kind == Some(x.kind) && (WantsAny(x) ==> a.tool.Some?) && (b.tool.Some? <==> WantsAny(x))
    ensures HostsOnlyGo(r, b, init + [x], id)
  {
    SteadySnoc(init, x, id, r.kind);
    assert forall y :: y in init + [x] <==> y in init || y == x;
  }

  /** Reconciling the same rows again changes nothing, and creates nothing, exactly
      if the rows agree. */
  lemma ReconcileTwiceExactly(m: Maps, items: seq<Row>)
    requires Sound(m)
    ensures Reconcile(Reconcile(m, items), items) == Reconcile(m, items) <==> Agree(items)
  {
    if Agree(items) {
      AgreeIsFixed(m, items);
    }
    if Reconcile(Reconcile(m, items), items) == Reconcile(m, items) {
      FixedAgrees(m, items);
    }
  }

  lemma AgreeIsFixed(m: Maps, items: seq<Row>)
    requires Sound(m) && Agree(items)
    ensures Reconcile(Reconcile(m, items), items) == Reconcile(m, items)
  {
    ReconcileAt(m, items);
    var r := Reconcile(m, items);
    forall i | 0 <= i < |items| ensures Settled(StateOf(r, items[i].id), items[i]) {
      AgreeSettles(m, r, items, items[i]);
    }
    AllSettledFixed(r, items);
    ReconciledKeys(m, items);
    assert r.rows.Keys - Ids(items) == {};
    RemoveNothing(r);
  }

  lemma AgreeSettles(m: Maps, r: Maps, items: seq<Row>, x: Row)
    requires Agree(items) && x in items && IdReconciled(m, r, items, x.id)
    requires RowSound(StateOf(r, x.id), r.next)
    ensures Settled(StateOf(r, x.id), x)
  {
    var state := StateOf(r, x.id);
    assert x.id in Ids(items);
    LastRowIs(items, x.id);
    var last := LastRow(items, x.id).value;
    assert Alike(x, last) && Settled(state, last);
    SoundIntents(state, x, r.next);
    forall s | Wants(x, s) ensures state.At(s).Some? {
      assert s == Stop || s == Draft || s == Menu;
      var i :| 0 <= i < |items| && items[i] == x;
      AgreeOffers(items, i, s);
      assert ButtonRule(StateOf(m, x.id), state, items, x.id, s);
    }
  }

  lemma AgreeOffers(items: seq<Row>, i: nat, s: Suffix)
    requires Agree(items) && i < |items| && Wants(items[i], s)
    ensures OfferedAt(items, i, items[i].id, s) && Offers(items, items[i].id, s)
  {
    assert WantsAny(items[i]);
    forall x <- items[i..] | x.id == items[i].id ensures x.kind == items[i].kind && WantsAny(x) {
      assert x in items && Alike(x, items[i]);
    }
    assert OfferedAt(items, i, items[i].id, s);
  }

  lemma FixedAgrees(m: Maps, items: seq<Row>)
    requires Sound(m) && Reconcile(Reconcile(m, items), items) == Reconcile(m, items)
    ensures Agree(items)
  {
    ReconcileAt(m, items);
    var r := Reconcile(m, items);
    ReconcileAt(r, items);
    SyncRowsAt(r, items);
    var b := SyncRows(r, items);
    forall x <- items, y <- items | x.id == y.id ensures Alike(x, y) {
      var id := x.id;
      assert id in Ids(items);
      LastRowIs(items, id);
      assert IdReconciled(m, r, items, id);
      NothingCreatedInAll(r, items, id);
      RemoveAllAt(b, b.rows.Keys - Ids(items), id);
      assert StateOf(b, id) == StateOf(r, id);
    }
  }

  // ----- The keys of the maps -----

  /** Rows and kinds have exactly the listed ids; kind and host are those of the last
      row with the id, and a button is there exactly as the rows say. */
  lemma ReconciledKeys(m: Maps, items: seq<Row>)
    requires Sound(m)
    ensures var r := Reconcile(m, items);
            && r.rows.Keys == Ids(items) && r.kinds.Keys == Ids(items) && r.tools.Keys <= Ids(items)
            && (forall id <- Ids(items) :: DecidedByLast(r, items, id))
            && (forall id: string, s :: ToolKey(id, s) in r.buttons <==>
                  id in Ids(items) &&
                  (Offers(items, id, s) || (ToolKey(id, s) in m.buttons && Steady(items, id, Get(m.kinds, id)))))
            && (forall k <- r.buttons :: exists id, s :: id in r.tools && k == ToolKey(id, s))
  {
    ReconcileAt(m, items);
    var r := Reconcile(m, items);
    forall id: string
      ensures (id in r.rows <==> id in Ids(items)) && (id in r.kinds <==> id in Ids(items))
      ensures (id in r.tools ==> id in Ids(items)) && (id in Ids(items) ==> DecidedByLast(r, items, id))
    {
      assert IdReconciled(m, r, items, id);
      LastRowIs(items, id);
    }
    forall id: string, s
      ensures ToolKey(id, s) in r.buttons <==>
              id in Ids(items) &&
              (Offers(items, id, s) || (ToolKey(id, s) in m.buttons && Steady(items, id, Get(m.kinds, id))))
    {
      assert IdReconciled(m, r, items, id);
      LastRowIs(items, id);
      ReconciledButton(m, r, items, id, s);
    }
    ButtonsHaveHosts(r);
  }

  lemma ReconciledButton(m: Maps, r: Maps, items: seq<Row>, id: string, s: Suffix)
    requires IdReconciled(m, r, items, id)
    ensures ToolKey(id, s) in r.buttons <==>
            LastRow(items, id).Some? &&
            (Offers(items, id, s) || (ToolKey(id, s) in m.buttons && Steady(items, id, Get(m.kinds, id))))
  {
    assert s == Stop || s == Draft || s == Menu;
    assert StateOf(r, id).At(s) == ButtonAt(r, id, s) && StateOf(m, id).At(s) == ButtonAt(m, id, s);
    assert LastRow(items, id).Some? ==> ButtonRule(StateOf(m, id), StateOf(r, id), items, id, s);
  }

  ghost predicate DecidedByLast(r: Maps, items: seq<Row>, id: string) {
    && LastRow(items, id).Some? && id in r.kinds && r.kinds[id] == LastRow(items, id).value.kind
    && (id in r.tools <==> WantsAny(LastRow(items, id).value))
  }

  lemma ButtonsHaveHosts(r: Maps)
    requires Sound(r)
    ensures forall k <- r.buttons :: exists id, s :: id in r.tools && k == ToolKey(id, s)
  {
    forall k <- r.buttons ensures exists id, s :: id in r.tools && k == ToolKey(id, s) {
      var id, s :| k == ToolKey(id, s);
      assert RowSound(StateOf(r, id), r.next);
      assert StateOf(r, id).At(s) == ButtonAt(r, id, s);
      assert id in r.tools;
    }
  }
}
