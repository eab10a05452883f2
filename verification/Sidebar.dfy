/** Sidebar rows: partitioned into groups and reconciled into keyed maps of
    widgets, behind a memo of the last inputs. */
module Sidebar {
  import opened Text

  datatype Kind = Header | DropHint | Running | Project | Task | Inbox | Reveal | Empty
                | Archived | SearchProject | SearchTask

  datatype Row = Row(id: string, caption: string, kind: Kind, selected: bool, ancestor: bool, depth: nat,
                     expanded: Option<bool>, canStop: bool, canMenu: bool, canDraft: bool)

  datatype TaskItem = TaskItem(id: string, title: string, selected: bool)

  /** The part of a shell snapshot the sidebar depends on. */
  datatype Snapshot = Snapshot(rows: seq<Row>, tasks: seq<TaskItem>, searchOpen: bool)

  datatype Groups = Groups(sessions: seq<Row>, projects: seq<Row>, inbox: seq<Row>)

  datatype Bucket = InSessions | InProjects | InInbox

  // ----- Partition -----

  predicate SectionChrome(row: Row) {
    || row.kind.Header? || row.kind.Inbox?
    || row.id == "sessions-empty" || row.id == "projects-empty" || row.id == "inbox-empty"
  }

  predicate Grouped(s: Snapshot) {
    !s.searchOpen && exists i :: 0 <= i < |s.rows| && (s.rows[i].kind.Inbox? || s.rows[i].id == "projects-header")
  }

  function TaskRow(t: TaskItem): Row {
    Row(t.id, t.title, Task, t.selected, false, 0, None, false, true, false)
  }

  function TaskRows(tasks: seq<TaskItem>): seq<Row> {
    seq(|tasks|, i requires 0 <= i < |tasks| => TaskRow(tasks[i]))
  }

  function Visible(rows: seq<Row>): seq<Row> {
    if rows == [] then []
    else Visible(rows[..|rows| - 1]) + (if SectionChrome(rows[|rows| - 1]) then [] else [rows[|rows| - 1]])
  }

  /** The section open after these rows. */
  function OpenBucket(rows: seq<Row>): Bucket {
    if rows == [] then InSessions
    else
      var last := rows[|rows| - 1];
      if last.kind.Header? && last.id == "projects-header" then InProjects
      else if last.kind.Inbox? then InInbox
      else OpenBucket(rows[..|rows| - 1])
  }

  function TargetOf(row: Row, open: Bucket, grouped: bool): Bucket {
    if (row.kind.DropHint? || row.kind.Archived?) && grouped then InProjects else open
  }

  /** The rows that belong to one section, in order. */
  function Section(rows: seq<Row>, grouped: bool, b: Bucket): seq<Row> {
    if rows == [] then []
    else
      var init, last := rows[..|rows| - 1], rows[|rows| - 1];
      Section(init, grouped, b) +
      (if !SectionChrome(last) && TargetOf(last, OpenBucket(init), grouped) == b then [last] else [])
  }

  function GroupsOf(s: Snapshot): Groups {
    if s.rows == [] then Groups(TaskRows(s.tasks), [], [])
    else if s.searchOpen then Groups(Visible(s.rows), [], [])
    else
      var g := Grouped(s);
      Groups(Section(s.rows, g, InSessions), Section(s.rows, g, InProjects), Section(s.rows, g, InInbox))
  }

  method PartitionRows(s: Snapshot) returns (groups: Groups)
    ensures groups == GroupsOf(s)
  {
    var grouped := !s.searchOpen &&
                   exists i :: 0 <= i < |s.rows| && (s.rows[i].kind.Inbox? || s.rows[i].id == "projects-header");
    if s.rows == [] { return Groups(TaskRows(s.tasks), [], []); }
    if s.searchOpen { return Groups(Visible(s.rows), [], []); }
    var sessions, projects, inbox := [], [], [];
    var bucket := InSessions;
    for i := 0 to |s.rows|
      invariant bucket == OpenBucket(s.rows[..i])
      invariant sessions == Section(s.rows[..i], grouped, InSessions)
      invariant projects == Section(s.rows[..i], grouped, InProjects)
      invariant inbox == Section(s.rows[..i], grouped, InInbox)
    {
      var row := s.rows[i];
      assert s.rows[..i + 1] == s.rows[..i] + [row];
      SectionSnoc(s.rows[..i], row, grouped, InSessions);
      SectionSnoc(s.rows[..i], row, grouped, InProjects);
      SectionSnoc(s.rows[..i], row, grouped, InInbox);
      if row.kind.Header? && row.id == "projects-header" {
        bucket := InProjects;
        continue;
      }
      if row.kind.Inbox? {
        bucket := InInbox;
        continue;
      }
      if SectionChrome(row) { continue; }
      match TargetOf(row, bucket, grouped) {
        case InSessions => sessions := sessions + [row];
        case InProjects => projects := projects + [row];
        case InInbox => inbox := inbox + [row];
      }
    }
    assert s.rows[..|s.rows|] == s.rows;
    groups := Groups(sessions, projects, inbox);
  }

  function AllRows(g: Groups): seq<Row> { g.sessions + g.projects + g.inbox }

  predicate DistinctRowIds(rows: seq<Row>) {
    forall i, j :: 0 <= i < j < |rows| ==> rows[i].id != rows[j].id
  }

  lemma SectionSnoc(init: seq<Row>, last: Row, grouped: bool, b: Bucket)
    ensures Section(init + [last], grouped, b) ==
            if !SectionChrome(last) && TargetOf(last, OpenBucket(init), grouped) == b
            then Section(init, grouped, b) + [last] else Section(init, grouped, b)
    ensures Visible(init + [last]) == if SectionChrome(last) then Visible(init) else Visible(init) + [last]
  {
    assert (init + [last])[..|init|] == init;
  }

  /** Every row that is not section chrome lands in exactly one section. */
  lemma {:induction false} SectionsPartition(rows: seq<Row>, grouped: bool)
    ensures multiset(Section(rows, grouped, InSessions)) + multiset(Section(rows, grouped, InProjects)) +
            multiset(Section(rows, grouped, InInbox)) == multiset(Visible(rows))
  {
    if rows != [] {
      var init, last := rows[..|rows| - 1], rows[|rows| - 1];
      assert rows == init + [last];
      SectionsPartition(init, grouped);
      SectionsGrow(init, last, grouped);
    }
  }

  /** A further row goes to one section, or to none if it is section chrome. */
  lemma SectionsGrow(init: seq<Row>, last: Row, grouped: bool)
    ensures var rows := init + [last];
            var more := if SectionChrome(last) then multiset{} else multiset{last};
            && multiset(Visible(rows)) == multiset(Visible(init)) + more
            && multiset(Section(rows, grouped, InSessions)) + multiset(Section(rows, grouped, InProjects)) +
               multiset(Section(rows, grouped, InInbox)) ==
               multiset(Section(init, grouped, InSessions)) + multiset(Section(init, grouped, InProjects)) +
               multiset(Section(init, grouped, InInbox)) + more
  {
    SectionSnoc(init, last, grouped, InSessions);
    SectionSnoc(init, last, grouped, InProjects);
    SectionSnoc(init, last, grouped, InInbox);
  }

  function Ids(rows: seq<Row>): set<string> { set r | r in rows :: r.id }

  lemma DistinctSnoc(rows: seq<Row>, r: Row)
    ensures DistinctRowIds(rows + [r]) <==> DistinctRowIds(rows) && r.id !in Ids(rows)
    ensures Ids(rows + [r]) == Ids(rows) + {r.id}
  {
    var all := rows + [r];
    assert forall i :: 0 <= i < |rows| ==> all[i] == rows[i];
    assert all[|rows|] == r;
  }

  /** The row ids of three sections do not meet. */
  predicate Apart(a: seq<Row>, b: seq<Row>, c: seq<Row>) {
    && DistinctRowIds(a) && DistinctRowIds(b) && DistinctRowIds(c)
    && Ids(a) !! Ids(b) && Ids(a) !! Ids(c) && Ids(b) !! Ids(c)
  }

  lemma ApartIsDistinct(a: seq<Row>, b: seq<Row>, c: seq<Row>)
    requires Apart(a, b, c)
    ensures DistinctRowIds(a + b + c)
  {
    var s := a + b + c;
    forall i, j | 0 <= i < j < |s| ensures s[i].id != s[j].id {
      assert s[i] == if i < |a| then a[i] else if i < |a| + |b| then b[i - |a|] else c[i - |a| - |b|];
      assert s[j] == if j < |a| then a[j] else if j < |a| + |b| then b[j - |a|] else c[j - |a| - |b|];
      assert i < |a| ==> a[i].id in Ids(a);
      assert |a| <= i < |a| + |b| ==> b[i - |a|].id in Ids(b);
      assert |a| <= j < |a| + |b| ==> b[j - |a|].id in Ids(b);
      assert |a| + |b| <= j ==> c[j - |a| - |b|].id in Ids(c);
    }
  }

  lemma ApartGrow(a: seq<Row>, b: seq<Row>, c: seq<Row>, x: Row)
    requires Apart(a, b, c) && x.id !in Ids(a) + Ids(b) + Ids(c)
    ensures Apart(a + [x], b, c) && Apart(a, b + [x], c) && Apart(a, b, c + [x])
  {
    DistinctSnoc(a, x);
    DistinctSnoc(b, x);
    DistinctSnoc(c, x);
  }

  lemma {:induction false} SectionWithin(rows: seq<Row>, grouped: bool, b: Bucket)
    ensures Ids(Section(rows, grouped, b)) <= Ids(rows)
  {
    if rows != [] {
      var init, last := rows[..|rows| - 1], rows[|rows| - 1];
      assert rows == init + [last];
      SectionWithin(init, grouped, b);
      SectionSnoc(init, last, grouped, b);
      DistinctSnoc(init, last);
      DistinctSnoc(Section(init, grouped, b), last);
    }
  }

  lemma {:induction false} SectionsApart(rows: seq<Row>, grouped: bool)
    requires DistinctRowIds(rows)
    ensures Apart(Section(rows, grouped, InSessions), Section(rows, grouped, InProjects),
                  Section(rows, grouped, InInbox))
  {
    if rows != [] {
      var init, last := rows[..|rows| - 1], rows[|rows| - 1];
      assert rows == init + [last];
      var a, b := Section(init, grouped, InSessions), Section(init, grouped, InProjects);
      var c := Section(init, grouped, InInbox);
      DistinctSnoc(init, last);
      SectionsApart(init, grouped);
      SectionWithin(init, grouped, InSessions);
      SectionWithin(init, grouped, InProjects);
      SectionWithin(init, grouped, InInbox);
      ApartGrow(a, b, c, last);
      SectionSnoc(init, last, grouped, InSessions);
      SectionSnoc(init, last, grouped, InProjects);
      SectionSnoc(init, last, grouped, InInbox);
    }
  }

  lemma {:induction false} VisibleDistinct(rows: seq<Row>)
    requires DistinctRowIds(rows)
    ensures DistinctRowIds(Visible(rows)) && Ids(Visible(rows)) <= Ids(rows)
  {
    if rows != [] {
      var init, last := rows[..|rows| - 1], rows[|rows| - 1];
      assert rows == init + [last];
      DistinctSnoc(init, last);
      VisibleDistinct(init);
      DistinctSnoc(Visible(init), last);
    }
  }

  predicate DistinctTasks(tasks: seq<TaskItem>) {
    forall i, j :: 0 <= i < j < |tasks| ==> tasks[i].id != tasks[j].id
  }

  predicate DistinctSnapshot(s: Snapshot) { DistinctRowIds(s.rows) && DistinctTasks(s.tasks) }

  /** Distinct row ids stay distinct across all groups. */
  lemma GroupsDistinct(s: Snapshot)
    requires DistinctSnapshot(s)
    ensures DistinctRowIds(AllRows(GroupsOf(s)))
  {
    SectionsApart(s.rows, Grouped(s));
    VisibleDistinct(s.rows);
    var g := GroupsOf(s);
    assert Apart(g.sessions, g.projects, g.inbox);
    ApartIsDistinct(g.sessions, g.projects, g.inbox);
  }

}
