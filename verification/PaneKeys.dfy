/** Exactly which pane ids keep the split keys of every layout distinct. */
module PaneKeys {
  import opened Text
  import opened PaneLayout

  /** The first leaves of the two halves of each split, in the order of the keys. */
  function Pairs(l: Layout): seq<(string, string)> {
    match l
    case Leaf(_) => []
    case Split(_, _, first, second) => Pairs(first) + Pairs(second) + [(FirstLeaf(first), FirstLeaf(second))]
  }

  function KeyOf(p: (string, string)): string { p.0 + ":" + p.1 }

  lemma {:induction false} KeysOfPairs(l: Layout)
    ensures |Keys(l)| == |Pairs(l)| == |Seconds(l)|
    ensures forall i :: 0 <= i < |Pairs(l)| ==> Keys(l)[i] == KeyOf(Pairs(l)[i]) && Seconds(l)[i] == Pairs(l)[i].1
  {
    match l
    case Leaf(_) =>
    case Split(_, _, first, second) =>
      KeysOfPairs(first);
      KeysOfPairs(second);
  }

  /** `a` is a leaf before `b`. */
  ghost predicate Precedes(ids: seq<string>, a: string, b: string) {
    exists i, j :: 0 <= i < j < |ids| && ids[i] == a && ids[j] == b
  }

  lemma PrecedesJoin(x: seq<string>, y: seq<string>, a: string, b: string)
    ensures Precedes(x, a, b) ==> Precedes(x + y, a, b)
    ensures Precedes(y, a, b) ==> Precedes(x + y, a, b)
    ensures a in x && b in y ==> Precedes(x + y, a, b)
  {
    var z := x + y;
    assert forall i :: 0 <= i < |x| ==> z[i] == x[i];
    assert forall i :: 0 <= i < |y| ==> z[|x| + i] == y[i];
    if i, j :| 0 <= i < j < |x| && x[i] == a && x[j] == b { assert z[i] == a && z[j] == b; }
    if i, j :| 0 <= i < j < |y| && y[i] == a && y[j] == b { assert z[|x| + i] == a && z[|x| + j] == b; }
    if a in x && b in y {
      var i :| 0 <= i < |x| && x[i] == a;
      var j :| 0 <= j < |y| && y[j] == b;
      assert z[i] == a && z[|x| + j] == b;
    }
  }

  lemma {:induction false} PairsInOrder(l: Layout)
    ensures forall p <- Pairs(l) :: Precedes(LeafIds(l), p.0, p.1)
  {
    match l
    case Leaf(_) =>
    case Split(_, _, first, second) =>
      PairsInOrder(first);
      PairsInOrder(second);
      forall p <- Pairs(l) ensures Precedes(LeafIds(l), p.0, p.1) {
        PrecedesJoin(LeafIds(first), LeafIds(second), p.0, p.1);
        assert FirstLeaf(first) in LeafIds(first) && FirstLeaf(second) in LeafIds(second);
      }
  }

  /** Two different ordered pairs of ids with the same key. Two splits never have the
      same two leaves the other way round. */
  predicate Collide(p: (string, string), q: (string, string)) {
    KeyOf(p) == KeyOf(q) && p != q && p.0 != p.1 && q.0 != q.1 && !(p.0 == q.1 && p.1 == q.0)
  }

  predicate Over(l: Layout, ids: set<string>) { NoDup(LeafIds(l)) && forall id <- LeafIds(l) :: id in ids }

  predicate PairOf(ids: set<string>, p: (string, string)) { p.0 in ids && p.1 in ids }

  ghost predicate AlwaysDistinct(ids: set<string>) { forall l :: Over(l, ids) ==> NoDup(Keys(l)) }

  lemma DistinctWithoutCollision(l: Layout, ids: set<string>)
    requires Over(l, ids)
    requires forall p: (string, string), q: (string, string) | PairOf(ids, p) && PairOf(ids, q) :: !Collide(p, q)
    ensures NoDup(Keys(l))
  {
    KeysOfPairs(l);
    PairsInOrder(l);
    SecondsAreLaterLeaves(l);
    var pairs := Pairs(l);
    forall i, j | 0 <= i < j < |Keys(l)| ensures Keys(l)[i] != Keys(l)[j] {
      assert pairs[i] in pairs && pairs[j] in pairs;
      assert PairOf(ids, pairs[i]) && PairOf(ids, pairs[j]);
      assert !Collide(pairs[i], pairs[j]);
      assert Seconds(l)[i] != Seconds(l)[j];
    }
  }

  function Two(first: Layout, second: Layout): Layout { Split(true, 0.5, first, second) }

  lemma OneSplit(p: string, q: string)
    ensures LeafIds(Two(Leaf(p), Leaf(q))) == [p, q] && Keys(Two(Leaf(p), Leaf(q))) == [KeyOf((p, q))]
  {
    assert Keys(Two(Leaf(p), Leaf(q))) == [] + [] + [KeyOf((p, q))];
  }

  /** Two leaves of a split that starts with a third leaf. */
  lemma ThreeLeaves(r: string, p: string, q: string)
    requires NoDup([r, p, q]) && KeyOf((p, q)) == KeyOf((r, p))
    ensures var l := Two(Leaf(r), Two(Leaf(p), Leaf(q))); LeafIds(l) == [r, p, q] && !NoDup(Keys(l))
  {
    var inner := Two(Leaf(p), Leaf(q));
    var l := Two(Leaf(r), inner);
    OneSplit(p, q);
    assert LeafIds(l) == [r] + [p, q];
    assert Keys(l) == [] + [KeyOf((p, q))] + [SplitKey(Leaf(r), inner)];
    assert Keys(l)[0] == KeyOf((p, q)) && Keys(l)[1] == KeyOf((r, p));
  }

  lemma FourLeaves(p: string, q: string, r: string, s: string)
    requires NoDup([p, q, r, s]) && KeyOf((p, q)) == KeyOf((r, s))
    ensures var l := Two(Two(Leaf(p), Leaf(q)), Two(Leaf(r), Leaf(s))); LeafIds(l) == [p, q, r, s] && !NoDup(Keys(l))
  {
    var a, b := Two(Leaf(p), Leaf(q)), Two(Leaf(r), Leaf(s));
    OneSplit(p, q);
    OneSplit(r, s);
    assert LeafIds(Two(a, b)) == [p, q] + [r, s];
    var keys := Keys(Two(a, b));
    assert keys[0] == KeyOf((p, q)) && keys[1] == KeyOf((r, s));
  }

  /** Colliding pairs make a layout of distinct leaves whose keys collide. */
  lemma CollisionShows(ids: set<string>, p: (string, string), q: (string, string)) returns (l: Layout)
    requires PairOf(ids, p) && PairOf(ids, q) && Collide(p, q)
    ensures Over(l, ids) && !NoDup(Keys(l))
  {
    SameEnd(p, q);
    if p.0 == q.1 {
      ThreeLeaves(q.0, p.0, p.1);
      l := Two(Leaf(q.0), Two(Leaf(p.0), Leaf(p.1)));
    } else if p.1 == q.0 {
      ThreeLeaves(p.0, q.0, q.1);
      l := Two(Leaf(p.0), Two(Leaf(q.0), Leaf(q.1)));
    } else {
      FourLeaves(p.0, p.1, q.0, q.1);
      l := Two(Two(Leaf(p.0), Leaf(p.1)), Two(Leaf(q.0), Leaf(q.1)));
    }
  }

  lemma SameEnd(p: (string, string), q: (string, string))
    requires KeyOf(p) == KeyOf(q) && p != q
    ensures p.0 != q.0 && p.1 != q.1
  {
    var k := KeyOf(p);
    assert |p.0| + 1 + |p.1| == |k| == |q.0| + 1 + |q.1|;
    assert p.0 == k[..|p.0|] && p.1 == k[|p.0| + 1..];
    assert q.0 == k[..|q.0|] && q.1 == k[|q.0| + 1..];
  }

  /** The split keys of every layout over some ids are distinct exactly if no two pairs
      of them collide. */
  lemma KeysDistinctExactly(ids: set<string>)
    ensures AlwaysDistinct(ids) <==>
            forall p: (string, string), q: (string, string) | PairOf(ids, p) && PairOf(ids, q) :: !Collide(p, q)
  {
    if p: (string, string), q: (string, string) :| PairOf(ids, p) && PairOf(ids, q) && Collide(p, q) {
      var l := CollisionShows(ids, p, q);
    } else {
      forall l | Over(l, ids) ensures NoDup(Keys(l)) { DistinctWithoutCollision(l, ids); }
    }
  }

  /** Ids with colons can collide although they are distinct. */
  lemma ColonsCollide()
    ensures Collide(("a", "b:c"), ("a:b", "c")) && !AlwaysDistinct({"a", "b:c", "a:b", "c"})
  {
    assert KeyOf(("a", "b:c")) == "a:b:c" == KeyOf(("a:b", "c"));
    KeysDistinctExactly({"a", "b:c", "a:b", "c"});
    assert PairOf({"a", "b:c", "a:b", "c"}, ("a", "b:c")) && PairOf({"a", "b:c", "a:b", "c"}, ("a:b", "c"));
  }
}
