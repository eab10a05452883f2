/** Pane layouts and the split widgets cached for them. */
module PaneLayout {
  import opened Text

  datatype Layout =
    | Leaf(id: string)
    | Split(horizontal: bool, ratio: real, first: Layout, second: Layout)

  function FirstLeaf(l: Layout): string {
    match l
    case Leaf(id) => id
    case Split(_, _, first, _) => FirstLeaf(first)
  }

  function LeafIds(l: Layout): (ids: seq<string>)
    ensures ids != [] && ids[0] == FirstLeaf(l)
  {
    match l
    case Leaf(id) => [id]
    case Split(_, _, first, second) => LeafIds(first) + LeafIds(second)
  }

  function SplitKey(first: Layout, second: Layout): string {
    FirstLeaf(first) + ":" + FirstLeaf(second)
  }

  /** The keys of all splits, in the order they are mounted. */
  function Keys(l: Layout): seq<string> {
    match l
    case Leaf(_) => []
    case Split(_, _, first, second) => Keys(first) + Keys(second) + [SplitKey(first, second)]
  }

  predicate ColonFree(id: string) { ':' !in id }

  /** Distinct leaf ids of which all but the first leaf's are free of colons. */
  predicate Keyed(l: Layout) {
    NoDup(LeafIds(l)) && forall id :: id in LeafIds(l) && id != FirstLeaf(l) ==> ColonFree(id)
  }

  /** The last colon separates a key. */
  lemma {:induction false} KeySplits(a: string, b: string, c: string, d: string)
    requires a + ":" + b == c + ":" + d && ColonFree(b) && ColonFree(d)
    ensures b == d
  {
    var s := a + ":" + b;
    assert s[|a|] == ':' && s[|c|] == ':';
    assert forall i :: |a| < i < |s| ==> s[i] == b[i - |a| - 1];
    assert forall i :: |c| < i < |s| ==> s[i] == d[i - |c| - 1];
    assert b == s[|a| + 1..] && d == s[|c| + 1..];
  }

  /** The first leaf of the second half of each split. */
  function Seconds(l: Layout): seq<string> {
    match l
    case Leaf(_) => []
    case Split(_, _, first, second) => Seconds(first) + Seconds(second) + [FirstLeaf(second)]
  }

  lemma {:induction false} SecondsAreLaterLeaves(l: Layout)
    requires NoDup(LeafIds(l))
    ensures NoDup(Seconds(l)) && |Seconds(l)| == |Keys(l)| == |LeafIds(l)| - 1
    ensures forall id <- Seconds(l) :: id in LeafIds(l) && id != FirstLeaf(l)
    ensures forall i :: 0 <= i < |Keys(l)| ==>
              exists f: string :: Keys(l)[i] == f + ":" + Seconds(l)[i]
  {
    match l {
      case Leaf(_) =>
      case Split(_, _, first, second) =>
        var a, b := LeafIds(first), LeafIds(second);
        HalvesDistinct(a, b);
        SecondsAreLaterLeaves(first);
        SecondsAreLaterLeaves(second);
        NoDupJoin(Seconds(first), Seconds(second));
        NoDupSnoc(Seconds(first) + Seconds(second), FirstLeaf(second));
    }
  }

  lemma HalvesDistinct<T>(a: seq<T>, b: seq<T>)
    requires NoDup(a + b)
    ensures NoDup(a) && NoDup(b) && forall x <- a :: x !in b
  {
    var s := a + b;
    assert forall i :: 0 <= i < |a| ==> a[i] == s[i];
    assert forall j :: 0 <= j < |b| ==> b[j] == s[|a| + j];
  }

  lemma NoDupJoin<T>(a: seq<T>, b: seq<T>)
    requires NoDup(a) && NoDup(b) && forall x <- a :: x !in b
    ensures NoDup(a + b)
  {
    var s := a + b;
    forall i, j | 0 <= i < j < |s| ensures s[i] != s[j] {
      if i < |a| <= j { assert a[i] in a && b[j - |a|] in b; }
    }
  }

  /** No two splits of a keyed layout share a cache key, and there is one split
      fewer than leaves. */
  lemma KeysDistinct(l: Layout)
    requires Keyed(l)
    ensures NoDup(Keys(l)) && |Keys(l)| == |LeafIds(l)| - 1
  {
    SecondsAreLaterLeaves(l);
    forall i, j | 0 <= i < j < |Keys(l)|
      ensures Keys(l)[i] != Keys(l)[j]
    {
      if Keys(l)[i] == Keys(l)[j] {
        var f: string :| Keys(l)[i] == f + ":" + Seconds(l)[i];
        var g: string :| Keys(l)[j] == g + ":" + Seconds(l)[j];
        assert Seconds(l)[i] in Seconds(l) && Seconds(l)[j] in Seconds(l);
        KeySplits(f, Seconds(l)[i], g, Seconds(l)[j]);
      }
    }
  }

  // ----- Mounting -----

  type Node = nat

  /** The widgets a shell keeps for its panes: the primary pane's chrome, the
      chrome of the other panes, the cached splits and their handles, and the
      children last given to each node. */
  datatype Widgets = Widgets(chrome: Node, extra: map<string, Node>, splits: map<string, Node>,
                             handles: map<string, Node>, children: map<Node, seq<Node>>)

  function ChromeFor(w: Widgets, primary: string, id: string): Node {
    if id == primary then w.chrome else if id in w.extra then w.extra[id] else w.chrome
  }

  /** The node that stands for a mounted layout. */
  function RootOf(w: Widgets, primary: string, l: Layout): Option<Node> {
    match l
    case Leaf(id) => Some(ChromeFor(w, primary, id))
    case Split(_, _, first, second) =>
      if SplitKey(first, second) in w.splits then Some(w.splits[SplitKey(first, second)]) else None
  }

  /** The widgets form a tree of the layout's shape: every split node has the
      roots of its halves as children, with its handle between them. */
  ghost predicate Mounted(w: Widgets, primary: string, l: Layout) {
    match l
    case Leaf(_) => true
    case Split(_, _, first, second) =>
      var key := SplitKey(first, second);
      && key in w.splits && key in w.handles && w.splits[key] in w.children
      && RootOf(w, primary, first).Some? && RootOf(w, primary, second).Some?
      && w.children[w.splits[key]] ==
           [RootOf(w, primary, first).value, w.handles[key], RootOf(w, primary, second).value]
      && Mounted(w, primary, first) && Mounted(w, primary, second)
  }

  ghost predicate Injective(m: map<string, Node>) {
    forall k, l :: k in m && l in m && m[k] == m[l] ==> k == l
  }

  ghost predicate Below(m: map<string, Node>, next: Node, chrome: Node) {
    forall k <- m :: m[k] < next && m[k] != chrome
  }

  ghost predicate Apart(a: map<string, Node>, b: map<string, Node>) {
    forall k, l :: k in a && l in b ==> a[k] != b[l]
  }

  /** Nodes are fresh, used once, and used for one purpose. */
  ghost predicate Sound(w: Widgets, next: Node) {
    && w.chrome < next
    && Below(w.extra, next, w.chrome) && Below(w.splits, next, w.chrome) && Below(w.handles, next, w.chrome)
    && Injective(w.extra) && Injective(w.splits) && Injective(w.handles)
    && Apart(w.splits, w.handles) && Apart(w.extra, w.splits) && Apart(w.extra, w.handles)
  }

  /** From `before` to `after` every cached widget survives, and only the splits
      with `touched` keys got new children. */
  ghost predicate Kept(before: Widgets, after: Widgets, touched: set<string>) {
    && after.chrome == before.chrome && after.extra == before.extra
    && (forall k <- before.splits :: k in after.splits && after.splits[k] == before.splits[k])
    && (forall k <- before.handles :: k in after.handles && after.handles[k] == before.handles[k])
    && (forall k <- before.splits :: k !in touched && before.splits[k] in before.children ==>
          before.splits[k] in after.children &&
          after.children[before.splits[k]] == before.children[before.splits[k]])
  }

  /** Exactly the given keys were added to the splits and to the handles. */
  ghost predicate Grown(before: Widgets, after: Widgets, keys: set<string>) {
    after.splits.Keys == before.splits.Keys + keys && after.handles.Keys == before.handles.Keys + keys
  }

  /** The split of the key exists and has these two children around its handle. */
  ghost predicate SplitUpdated(before: Widgets, after: Widgets, key: string, first: Node, second: Node) {
    && Kept(before, after, {key}) && Grown(before, after, {key})
    && after.splits[key] in after.children
    && after.children[after.splits[key]] == [first, after.handles[key], second]
  }

  lemma KeptTransitive(a: Widgets, b: Widgets, c: Widgets, t: set<string>, u: set<string>)
    requires Kept(a, b, t) && Kept(b, c, u)
    ensures Kept(a, c, t + u)
  {}

  function SetOf(s: seq<string>): set<string> { set x | x in s }

  function KeySet(l: Layout): set<string> { SetOf(Keys(l)) }

  /** A mounted layout stays mounted while other splits are touched. */
  lemma {:induction false} MountedKept(before: Widgets, after: Widgets, touched: set<string>,
                                       primary: string, l: Layout)
    requires Mounted(before, primary, l) && Kept(before, after, touched) && KeySet(l) !! touched
    ensures Mounted(after, primary, l) && RootOf(after, primary, l) == RootOf(before, primary, l)
  {
    match l {
      case Leaf(_) =>
      case Split(_, _, first, second) =>
        assert SplitKey(first, second) in Keys(l);
        assert KeySet(first) <= KeySet(l) && KeySet(second) <= KeySet(l);
        MountedKept(before, after, touched, primary, first);
        MountedKept(before, after, touched, primary, second);
    }
  }

  lemma ThreeParts(a: seq<string>, b: seq<string>, key: string)
    requires NoDup(a + b + [key])
    ensures NoDup(a) && NoDup(b) && SetOf(a) !! SetOf(b) && key !in SetOf(a) + SetOf(b)
    ensures SetOf(a + b + [key]) == SetOf(a) + SetOf(b) + {key}
  {
    NoDupSnoc(a + b, key);
    HalvesDistinct(a, b);
  }

  lemma KeySetOfSplit(l: Layout)
    requires l.Split?
    ensures KeySet(l) == KeySet(l.first) + KeySet(l.second) + {SplitKey(l.first, l.second)}
  {}

  lemma KeySets(first: Layout, second: Layout, l: Layout)
    requires l.Split? && l.first == first && l.second == second && NoDup(Keys(l))
    ensures NoDup(Keys(first)) && NoDup(Keys(second)) && KeySet(first) !! KeySet(second)
    ensures SplitKey(first, second) !in KeySet(first) + KeySet(second)
    ensures KeySet(l) == KeySet(first) + KeySet(second) + {SplitKey(first, second)}
  {
    ThreeParts(Keys(first), Keys(second), SplitKey(first, second));
  }

  class PaneShell {
    var chrome: Node
    var extra: map<string, Node>
    var splits: map<string, Node>
    var handles: map<string, Node>
    var children: map<Node, seq<Node>>
    var next: Node

    ghost function View(): Widgets
      reads this
    {
      Widgets(chrome, extra, splits, handles, children)
    }

    ghost predicate Valid()
      reads this
    {
      Sound(View(), next)
    }

    constructor ()
      ensures Valid() && extra == map[] && splits == map[]
    {
      chrome, extra, splits, handles, children, next := 0, map[], map[], map[], map[], 1;
    }

    method HandleFor(key: string) returns (handle: Node)
      requires Valid()
      modifies this`handles, this`next
      ensures Valid() && Kept(old(View()), View(), {}) && next >= old(next)
      ensures handles.Keys == old(handles).Keys + {key} && handle == handles[key]
    {
      if key !in handles {
        ghost var before := View();
        handles := handles[key := next];
        next := next + 1;
        assert View() == before.(handles := handles);
      }
      handle := handles[key];
    }

    method SplitFor(key: string) returns (split: Node)
      requires Valid()
      modifies this`splits, this`next
      ensures Valid() && Kept(old(View()), View(), {}) && next >= old(next)
      ensures splits.Keys == old(splits).Keys + {key} && split == splits[key]
    {
      if key !in splits {
        ghost var before := View();
        splits := splits[key := next];
        next := next + 1;
        assert View() == before.(splits := splits);
      }
      split := splits[key];
    }

    /** Gives the split of a key its two halves, with the handle between them. */
    method UpdateSplit(key: string, first: Node, second: Node) returns (split: Node)
      requires Valid()
      modifies this`splits, this`handles, this`children, this`next
      ensures Valid() && next >= old(next)
      ensures SplitUpdated(old(View()), View(), key, first, second) && split == splits[key]
    {
      var handle := HandleFor(key);
      ghost var w := View();
      split := SplitFor(key);
      w := View();
      children := children[split := [first, handle, second]];
      assert Kept(w, View(), {key});
    }

    /** Mounts a layout on its cached widgets, creating those that are missing. */
    method MountPaneLayout(l: Layout, primary: string) returns (root: Node)
      requires Valid()
      modifies this`splits, this`handles, this`children, this`next
      ensures Valid() && next >= old(next)
      ensures Grown(old(View()), View(), KeySet(l))
      ensures NoDup(Keys(l)) ==> MountedOver(old(View()), View(), primary, l, root)
      decreases l
    {
      match l {
        case Leaf(id) =>
          root := if id == primary then chrome else if id in extra then extra[id] else chrome;
        case Split(_, _, first, second) =>
          ghost var w0 := View();
          var firstId := MountPaneLayout(first, primary);
          ghost var w1 := View();
          var secondId := MountPaneLayout(second, primary);
          ghost var w2 := View();
          root := UpdateSplit(SplitKey(first, second), firstId, secondId);
          MountSplit(w0, w1, w2, View(), primary, l, firstId, secondId);
      }
    }

    method EnsureChrome(id: string)
      requires Valid()
      modifies this`extra, this`next
      ensures Valid() && extra.Keys == old(extra).Keys + {id}
      ensures forall k <- old(extra) :: extra[k] == old(extra)[k]
    {
      if id !in extra {
        extra := extra[id := next];
        next := next + 1;
      }
    }

    /** Gives every pane but the primary one a chrome of its own. */
    method AddChromes(panes: seq<Pane>, primary: string)
      requires Valid()
      modifies this`extra, this`next
      ensures Valid()
      ensures forall pane <- panes :: pane.id == primary || pane.id in extra
      ensures forall k <- old(extra) :: k in extra && extra[k] == old(extra)[k]
    {
      for i := 0 to |panes|
        invariant Valid()
        invariant forall j :: 0 <= j < i ==> panes[j].id == primary || panes[j].id in extra
        invariant forall k <- old(extra) :: k in extra && extra[k] == old(extra)[k]
      {
        if panes[i].id != primary { EnsureChrome(panes[i].id); }
      }
    }

    /** Drops the chromes of panes that are gone. */
    method DropStale(panes: seq<Pane>)
      requires Valid()
      modifies this`extra
      ensures Valid()
      ensures forall id :: id in extra <==> id in old(extra) && HasPane(panes, id)
      ensures forall id <- extra :: extra[id] == old(extra)[id]
    {
      var kept := map id | id in extra && HasPane(panes, id) :: extra[id];
      extra := kept;
    }

    /** Brings the widgets in line with the panes of a snapshot. With fewer than
        two named leaves every cached widget is dropped. */
    method SyncPanes(panes: seq<Pane>, l: Layout) returns (root: Option<Node>, primary: string)
      requires Valid()
      modifies this`extra, this`splits, this`handles, this`children, this`next
      ensures Valid()
      ensures root.None? <==> |Named(LeafIds(l))| < 2
      ensures root.None? ==> extra == map[] && splits == map[] && handles == map[]
      ensures root.Some? ==>
                && primary == PrimaryOf(panes, Named(LeafIds(l)))
                && (Keyed(l) ==> Mounted(View(), primary, l) && RootOf(View(), primary, l) == root)
                && (forall pane <- panes :: pane.id == primary || pane.id in extra)
                && (forall id <- extra :: HasPane(panes, id))
                && (forall id <- old(extra) :: HasPane(panes, id) ==> id in extra && extra[id] == old(extra)[id])
    {
      var leafIds := Named(LeafIds(l));
      primary := "";
      if |leafIds| < 2 {
        extra, splits, handles := map[], map[], map[];
        return None, primary;
      }
      primary := PrimaryOf(panes, leafIds);
      AddChromes(panes, primary);
      DropStale(panes);
      if Keyed(l) { KeysDistinct(l); }
      var node := MountPaneLayout(l, primary);
      root := Some(node);
    }
  }

  datatype Pane = Pane(id: string, active: bool)

  predicate HasPane(panes: seq<Pane>, id: string) { exists i :: 0 <= i < |panes| && panes[i].id == id }

  function Named(ids: seq<string>): seq<string> {
    if ids == [] then [] else (if ids[0] == "" then [] else [ids[0]]) + Named(ids[1..])
  }

  function FirstActive(panes: seq<Pane>): Option<string> {
    if panes == [] then None else if panes[0].active then Some(panes[0].id) else FirstActive(panes[1..])
  }

  /** The active pane, else the first pane, else the first leaf. */
  function PrimaryOf(panes: seq<Pane>, leafIds: seq<string>): string
    requires leafIds != []
  {
    match FirstActive(panes)
    case Some(id) => id
    case None => if panes != [] then panes[0].id else leafIds[0]
  }

  /** The primary pane is the first active one, else the first one, else the first leaf
      with a name. */
  lemma {:induction false} PrimaryExactly(panes: seq<Pane>, leafIds: seq<string>)
    requires leafIds != []
    ensures forall i :: 0 <= i < |panes| && panes[i].active && (forall j :: 0 <= j < i ==> !panes[j].active) ==>
              PrimaryOf(panes, leafIds) == panes[i].id
    ensures panes != [] && (forall i :: 0 <= i < |panes| ==> !panes[i].active) ==>
              PrimaryOf(panes, leafIds) == panes[0].id
    ensures panes == [] ==> PrimaryOf(panes, leafIds) == leafIds[0]
  {
    FirstActiveIs(panes);
  }

  lemma {:induction false} FirstActiveIs(panes: seq<Pane>)
    ensures forall i :: 0 <= i < |panes| && panes[i].active && (forall j :: 0 <= j < i ==> !panes[j].active) ==>
              FirstActive(panes) == Some(panes[i].id)
    ensures (forall i :: 0 <= i < |panes| ==> !panes[i].active) ==> FirstActive(panes) == None
  {
    if panes != [] {
      FirstActiveIs(panes[1..]);
      forall i | 0 <= i < |panes| && panes[i].active && (forall j :: 0 <= j < i ==> !panes[j].active)
        ensures FirstActive(panes) == Some(panes[i].id)
      {
        if i > 0 {
          assert panes[1..][i - 1] == panes[i];
          assert forall j :: 0 <= j < i - 1 ==> panes[1..][j] == panes[j + 1];
        }
      }
    }
  }

  /** The leaves that count are found one by one, in order. */
  lemma {:induction false} NamedJoin(a: seq<string>, b: seq<string>)
    ensures Named(a + b) == Named(a) + Named(b)
  {
    if a == [] {
      assert a + b == b;
    } else {
      assert (a + b)[1..] == a[1..] + b;
      NamedJoin(a[1..], b);
    }
  }

  /** Those count that have a name. */
  lemma NamedOne(id: string)
    ensures Named([id]) == if id == "" then [] else [id]
  {
    assert [id][1..] == [];
  }

  /** The effect of mounting: the layout is mounted at `root`, exactly its keys
      were added, and the splits of other keys were not touched. */
  ghost predicate MountedOver(before: Widgets, after: Widgets, primary: string, l: Layout, root: Node) {
    && Mounted(after, primary, l) && RootOf(after, primary, l) == Some(root)
    && Grown(before, after, KeySet(l)) && Kept(before, after, KeySet(l))
  }

  /** Two mounted halves and their updated split make a mounted layout. */
  lemma MountHalves(w0: Widgets, w1: Widgets, w2: Widgets, w3: Widgets, primary: string, l: Layout,
                    a: Node, b: Node)
    requires l.Split? && NoDup(Keys(l))
    requires MountedOver(w0, w1, primary, l.first, a) && MountedOver(w1, w2, primary, l.second, b)
    requires SplitUpdated(w2, w3, SplitKey(l.first, l.second), a, b)
    ensures MountedOver(w0, w3, primary, l, w3.splits[SplitKey(l.first, l.second)])
  {
    var key := SplitKey(l.first, l.second);
    KeySets(l.first, l.second, l);
    KeptTransitive(w0, w1, w2, KeySet(l.first), KeySet(l.second));
    KeptTransitive(w0, w2, w3, KeySet(l.first) + KeySet(l.second), {key});
    HalvesStayMounted(w1, w2, w3, primary, l, a, b);
    AllKeysAdded(w0.splits, w1.splits, w2.splits, w3.splits, l);
    AllKeysAdded(w0.handles, w1.handles, w2.handles, w3.handles, l);
  }

  lemma MountSplit(w0: Widgets, w1: Widgets, w2: Widgets, w3: Widgets, primary: string, l: Layout,
                   a: Node, b: Node)
    requires l.Split?
    requires Grown(w0, w1, KeySet(l.first)) && Grown(w1, w2, KeySet(l.second))
    requires NoDup(Keys(l.first)) ==> MountedOver(w0, w1, primary, l.first, a)
    requires NoDup(Keys(l.second)) ==> MountedOver(w1, w2, primary, l.second, b)
    requires SplitUpdated(w2, w3, SplitKey(l.first, l.second), a, b)
    ensures Grown(w0, w3, KeySet(l))
    ensures NoDup(Keys(l)) ==> MountedOver(w0, w3, primary, l, w3.splits[SplitKey(l.first, l.second)])
  {
    KeySetOfSplit(l);
    AllKeysAdded(w0.splits, w1.splits, w2.splits, w3.splits, l);
    AllKeysAdded(w0.handles, w1.handles, w2.handles, w3.handles, l);
    if NoDup(Keys(l)) {
      KeySets(l.first, l.second, l);
      MountHalves(w0, w1, w2, w3, primary, l, a, b);
    }
  }

  lemma AllKeysAdded(m0: map<string, Node>, m1: map<string, Node>, m2: map<string, Node>,
                     m3: map<string, Node>, l: Layout)
    requires l.Split?
    requires KeySet(l) == KeySet(l.first) + KeySet(l.second) + {SplitKey(l.first, l.second)}
    requires m1.Keys == m0.Keys + KeySet(l.first) && m2.Keys == m1.Keys + KeySet(l.second)
    requires m3.Keys == m2.Keys + {SplitKey(l.first, l.second)}
    ensures m3.Keys == m0.Keys + KeySet(l)
  {}

  lemma HalvesStayMounted(w1: Widgets, w2: Widgets, w3: Widgets, primary: string, l: Layout, a: Node, b: Node)
    requires l.Split? && KeySet(l.first) !! KeySet(l.second)
    requires SplitKey(l.first, l.second) !in KeySet(l.first) + KeySet(l.second)
    requires Mounted(w1, primary, l.first) && RootOf(w1, primary, l.first) == Some(a)
    requires Mounted(w2, primary, l.second) && RootOf(w2, primary, l.second) == Some(b)
    requires Kept(w1, w2, KeySet(l.second)) && Kept(w2, w3, {SplitKey(l.first, l.second)})
    ensures Mounted(w3, primary, l.first) && RootOf(w3, primary, l.first) == Some(a)
    ensures Mounted(w3, primary, l.second) && RootOf(w3, primary, l.second) == Some(b)
  {
    var key := SplitKey(l.first, l.second);
    MountedKept(w1, w2, KeySet(l.second), primary, l.first);
    MountedKept(w2, w3, {key}, primary, l.first);
    MountedKept(w2, w3, {key}, primary, l.second);
  }

  // ----- The mounted widgets form a tree -----

  function Chromes(w: Widgets, primary: string, ids: seq<string>): seq<Node> {
    seq(|ids|, i requires 0 <= i < |ids| => ChromeFor(w, primary, ids[i]))
  }

  function Lookup(m: map<string, Node>, keys: seq<string>): seq<Node>
    requires forall k <- keys :: k in m
  {
    seq(|keys|, i requires 0 <= i < |keys| => m[keys[i]])
  }

  lemma {:induction false} MountedHasKeys(w: Widgets, primary: string, l: Layout)
    requires Mounted(w, primary, l)
    ensures forall k <- Keys(l) :: k in w.splits && k in w.handles
  {
    match l {
      case Leaf(_) =>
      case Split(_, _, first, second) =>
        MountedHasKeys(w, primary, first);
        MountedHasKeys(w, primary, second);
    }
  }

  /** The nodes of a mounted layout: pane chromes, splits and handles. */
  function TreeNodes(w: Widgets, primary: string, l: Layout): seq<Node>
    requires Mounted(w, primary, l)
  {
    MountedHasKeys(w, primary, l);
    Chromes(w, primary, LeafIds(l)) + (Lookup(w.splits, Keys(l)) + Lookup(w.handles, Keys(l)))
  }

  predicate FallsBack(w: Widgets, primary: string, id: string) { id == primary || id !in w.extra }

  predicate OneFallback(w: Widgets, primary: string, l: Layout) {
    forall i, j :: 0 <= i < j < |LeafIds(l)| ==>
      !FallsBack(w, primary, LeafIds(l)[i]) || !FallsBack(w, primary, LeafIds(l)[j])
  }

  /** No node occurs twice in a mounted layout exactly when at most one leaf is
      shown by the primary pane's chrome. */
  lemma TreeHasNoSharing(w: Widgets, next: Node, primary: string, l: Layout)
    requires Sound(w, next) && Mounted(w, primary, l) && Keyed(l)
    ensures NoDup(TreeNodes(w, primary, l)) <==> OneFallback(w, primary, l)
    ensures |TreeNodes(w, primary, l)| == 3 * |LeafIds(l)| - 2
  {
    KeysDistinct(l);
    MountedHasKeys(w, primary, l);
    var keys := Keys(l);
    var a, b, c := Chromes(w, primary, LeafIds(l)), Lookup(w.splits, keys), Lookup(w.handles, keys);
    LookupDistinct(w.splits, keys);
    LookupDistinct(w.handles, keys);
    ChromesApart(w, next, primary, LeafIds(l), keys);
    ChromesDistinct(w, next, primary, l);
    NoDupJoin(b, c);
    if NoDup(a) { NoDupJoin(a, b + c); }
    if NoDup(a + (b + c)) { HalvesDistinct(a, b + c); }
  }

  lemma LookupDistinct(m: map<string, Node>, keys: seq<string>)
    requires Injective(m) && NoDup(keys) && forall k <- keys :: k in m
    ensures NoDup(Lookup(m, keys))
  {}

  /** Chromes, splits and handles are different nodes. */
  lemma ChromesApart(w: Widgets, next: Node, primary: string, ids: seq<string>, keys: seq<string>)
    requires Sound(w, next) && forall k <- keys :: k in w.splits && k in w.handles
    ensures forall n <- Lookup(w.splits, keys) :: n !in Lookup(w.handles, keys)
    ensures forall n <- Chromes(w, primary, ids) :: n !in Lookup(w.splits, keys) + Lookup(w.handles, keys)
  {
    forall n <- Lookup(w.splits, keys) ensures n in w.splits.Values {
      var i :| 0 <= i < |keys| && Lookup(w.splits, keys)[i] == n;
      assert w.splits[keys[i]] == n;
    }
    forall n <- Lookup(w.handles, keys) ensures n in w.handles.Values {
      var i :| 0 <= i < |keys| && Lookup(w.handles, keys)[i] == n;
      assert w.handles[keys[i]] == n;
    }
    forall n <- Chromes(w, primary, ids) ensures n == w.chrome || n in w.extra.Values {
      var i :| 0 <= i < |ids| && Chromes(w, primary, ids)[i] == n;
      assert n == ChromeFor(w, primary, ids[i]);
    }
  }

  lemma ChromesDistinct(w: Widgets, next: Node, primary: string, l: Layout)
    requires Sound(w, next) && NoDup(LeafIds(l))
    ensures NoDup(Chromes(w, primary, LeafIds(l))) <==> OneFallback(w, primary, l)
  {
    var ids, a := LeafIds(l), Chromes(w, primary, LeafIds(l));
    forall i, j | 0 <= i < j < |ids|
      ensures a[i] == a[j] <==> FallsBack(w, primary, ids[i]) && FallsBack(w, primary, ids[j])
    {}
  }

  /** When the panes of a snapshot are the leaves of its layout, the synced
      widgets are a tree without sharing. */
  lemma MatchingPanesMakeATree(w: Widgets, next: Node, panes: seq<Pane>, primary: string, l: Layout)
    requires Sound(w, next) && Mounted(w, primary, l) && Keyed(l)
    requires forall pane <- panes :: pane.id == primary || pane.id in w.extra
    requires forall id <- LeafIds(l) :: HasPane(panes, id)
    ensures NoDup(TreeNodes(w, primary, l))
  {
    forall i | 0 <= i < |LeafIds(l)|
      ensures FallsBack(w, primary, LeafIds(l)[i]) ==> LeafIds(l)[i] == primary
    {
      assert HasPane(panes, LeafIds(l)[i]);
    }
    TreeHasNoSharing(w, next, primary, l);
  }
}
