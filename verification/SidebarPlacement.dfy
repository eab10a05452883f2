/** Which rows each section of the sidebar shows. */
module SidebarPlacement {
  import opened Text
  import opened Sidebar

  /** The row at `k` opens a section: the projects header, or any inbox row. */
  predicate OpensAt(rows: seq<Row>, k: nat, b: Bucket)
    requires k < |rows|
  {
    match b
    case InSessions => false
    case InProjects => rows[k].kind.Header? && rows[k].id == "projects-header"
    case InInbox => rows[k].kind.Inbox?
  }

  predicate OpensNone(rows: seq<Row>, k: nat)
    requires k < |rows|
  {
    !OpensAt(rows, k, InProjects) && !OpensAt(rows, k, InInbox)
  }

  /** The last row before `i` that opens a section opens this one; the sessions come
      before any such row. */
  predicate Under(rows: seq<Row>, i: nat, b: Bucket)
    requires i <= |rows|
  {
    if b.InSessions? then forall k :: 0 <= k < i ==> OpensNone(rows, k)
    else exists k :: 0 <= k < i && LastOpener(rows, k, i, b)
  }

  predicate LastOpener(rows: seq<Row>, k: nat, i: nat, b: Bucket)
    requires k < i <= |rows|
  {
    OpensAt(rows, k, b) && forall l :: k < l < i ==> OpensNone(rows, l)
  }

  lemma UnderPrefix(rows: seq<Row>, i: nat, b: Bucket)
    requires i <= |rows|
    ensures Under(rows, i, b) <==> Under(rows[..i], i, b)
  {
    var init := rows[..i];
    assert forall k :: 0 <= k < i ==> OpensNone(init, k) == OpensNone(rows, k);
    forall k | 0 <= k < i ensures LastOpener(init, k, i, b) <==> LastOpener(rows, k, i, b) {}
  }

  lemma UnderNext(rows: seq<Row>, n: nat, b: Bucket)
    requires n < |rows|
    ensures Under(rows, n + 1, b) <==> OpensAt(rows, n, b) || (OpensNone(rows, n) && Under(rows, n, b))
  {
    var m := n + 1;
    if k :| 0 <= k < m && LastOpener(rows, k, m, b) {
      if k < n { assert LastOpener(rows, k, n, b); }
    }
    if OpensAt(rows, n, b) { assert LastOpener(rows, n, n + 1, b); }
    if k :| 0 <= k < n && LastOpener(rows, k, n, b) {
      if OpensNone(rows, n) { assert LastOpener(rows, k, n + 1, b); }
    }
  }

  lemma {:induction false} OpenBucketExactly(rows: seq<Row>, b: Bucket)
    ensures OpenBucket(rows) == b <==> Under(rows, |rows|, b)
  {
    if rows != [] {
      var n := |rows| - 1;
      OpenBucketExactly(rows[..n], b);
      UnderPrefix(rows, n, b);
      UnderNext(rows, n, b);
    }
  }

  /** Section chrome is a header, an inbox row, or the placeholder of an empty section. */
  lemma ChromeExactly(row: Row)
    ensures SectionChrome(row) <==>
            row.kind.Header? || row.kind.Inbox? || row.id in ["sessions-empty", "projects-empty", "inbox-empty"]
  {}

  /** The row at `i` is shown in this section. */
  predicate ShownIn(rows: seq<Row>, grouped: bool, i: nat, b: Bucket)
    requires i < |rows|
  {
    var row := rows[i];
    && !SectionChrome(row)
    && if grouped && (row.kind.DropHint? || row.kind.Archived?) then b.InProjects? else Under(rows, i, b)
  }

  /** A section lists, in order, exactly the rows shown in it. */
  lemma {:induction false} SectionPositions(rows: seq<Row>, grouped: bool, b: Bucket) returns (at: seq<nat>)
    ensures PlacedAt(rows, grouped, b, Section(rows, grouped, b), at)
  {
    at := [];
    if rows != [] {
      var n := |rows| - 1;
      var init, last := rows[..n], rows[n];
      at := SectionPositions(init, grouped, b);
      assert rows == init + [last];
      SectionSnoc(init, last, grouped, b);
      OpenBucketExactly(init, b);
      UnderPrefix(rows, n, b);
      OneMorePlaced(init, last, grouped, b, Section(init, grouped, b), at);
      if ShownIn(rows, grouped, n, b) { at := at + [n]; }
    }
  }

  /** The list holds, in order, the rows at these positions: those shown in the section. */
  ghost predicate PlacedAt(rows: seq<Row>, grouped: bool, b: Bucket, listed: seq<Row>, at: seq<nat>) {
    && Positions(at, |rows|) && |at| == |listed|
    && (forall k :: 0 <= k < |at| ==> listed[k] == rows[at[k]])
    && (forall i :: 0 <= i < |rows| ==> (i in at <==> ShownIn(rows, grouped, i, b)))
  }

  lemma OneMorePlaced(init: seq<Row>, row: Row, grouped: bool, b: Bucket, listed: seq<Row>, at: seq<nat>)
    requires PlacedAt(init, grouped, b, listed, at)
    ensures if ShownIn(init + [row], grouped, |init|, b)
            then PlacedAt(init + [row], grouped, b, listed + [row], at + [|init|])
            else PlacedAt(init + [row], grouped, b, listed, at)
  {
    var rows := init + [row];
    assert forall k :: 0 <= k < |at| ==> at[k] in at;
    forall i | 0 <= i < |init| ensures ShownIn(rows, grouped, i, b) <==> ShownIn(init, grouped, i, b) {
      UnderPrefix(rows, i, b);
      UnderPrefix(init, i, b);
      assert init[..i] == rows[..i];
    }
  }

  function RowsIn(g: Groups, b: Bucket): seq<Row> {
    match b case InSessions => g.sessions case InProjects => g.projects case InInbox => g.inbox
  }

  /** Outside a search every section lists its rows in order. Drop hints and archived rows
      go to the projects once there is an inbox or a projects header. */
  lemma RowsPlaced(s: Snapshot, b: Bucket) returns (at: seq<nat>)
    requires s.rows != [] && !s.searchOpen
    ensures var grouped := exists row <- s.rows :: row.kind.Inbox? || row.id == "projects-header";
            PlacedAt(s.rows, grouped, b, RowsIn(GroupsOf(s), b), at)
  {
    at := SectionPositions(s.rows, Grouped(s), b);
    assert Grouped(s) <==> exists row <- s.rows :: row.kind.Inbox? || row.id == "projects-header" by {
      assert forall i :: 0 <= i < |s.rows| ==> s.rows[i] in s.rows;
    }
  }

  /** The list holds, in order, the rows at these positions: those that are shown. */
  predicate ShownAt(rows: seq<Row>, listed: seq<Row>, at: seq<nat>) {
    && Positions(at, |rows|) && |at| == |listed|
    && (forall k :: 0 <= k < |at| ==> listed[k] == rows[at[k]])
    && (forall i :: 0 <= i < |rows| ==> (i in at <==> !SectionChrome(rows[i])))
  }

  lemma OneMoreShown(init: seq<Row>, row: Row, listed: seq<Row>, at: seq<nat>)
    requires ShownAt(init, listed, at)
    ensures if SectionChrome(row) then ShownAt(init + [row], listed, at)
            else ShownAt(init + [row], listed + [row], at + [|init|])
  {
    assert forall k :: 0 <= k < |at| ==> at[k] in at;
  }

  lemma {:induction false} VisiblePositions(rows: seq<Row>) returns (at: seq<nat>)
    ensures ShownAt(rows, Visible(rows), at)
  {
    at := [];
    if rows != [] {
      var n := |rows| - 1;
      at := VisiblePositions(rows[..n]);
      SectionSnoc(rows[..n], rows[n], false, InSessions);
      OneMoreShown(rows[..n], rows[n], Visible(rows[..n]), at);
      assert rows == rows[..n] + [rows[n]];
      if !SectionChrome(rows[n]) { at := at + [n]; }
    }
  }

  /** A search lists all visible rows in the first section. Without rows the tasks are
      listed there, one row each. */
  lemma ListsPlaced(s: Snapshot) returns (at: seq<nat>)
    requires s.rows == [] || s.searchOpen
    ensures GroupsOf(s).projects == [] && GroupsOf(s).inbox == []
    ensures s.rows == [] ==>
              && |GroupsOf(s).sessions| == |s.tasks|
              && forall i :: 0 <= i < |s.tasks| ==>
                   var row, t := GroupsOf(s).sessions[i], s.tasks[i];
                   && row.id == t.id && row.caption == t.title && row.selected == t.selected && row.kind.Task?
                   && row.depth == 0 && row.canMenu && !row.canStop && !row.canDraft
    ensures s.rows != [] ==> ShownAt(s.rows, GroupsOf(s).sessions, at)
  {
    at := VisiblePositions(s.rows);
  }
}
