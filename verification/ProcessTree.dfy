/** The performance probe's process tree: the closure of a root under parent
    links, and saturating totals over it. */
module ProcessTree {
  import opened Text

  type Pid = nat

  datatype Process = Process(pid: Pid, parent: Pid)

  /** A line of descent: each process after the first has its predecessor as parent. */
  predicate Descent(processes: seq<Process>, path: seq<Pid>) {
    path != [] && forall i :: 0 < i < |path| ==> Process(path[i], path[i - 1]) in processes
  }

  ghost predicate Descends(processes: seq<Process>, root: Pid, pid: Pid) {
    exists path :: Descent(processes, path) && path[0] == root && path[|path| - 1] == pid
  }

  predicate Closed(processes: seq<Process>, pids: set<Pid>) {
    forall i :: 0 <= i < |processes| && processes[i].parent in pids ==> processes[i].pid in pids
  }

  lemma RootDescends(processes: seq<Process>, root: Pid)
    ensures Descends(processes, root, root)
  {
    assert Descent(processes, [root]);
  }

  lemma ChildDescends(processes: seq<Process>, root: Pid, p: Process)
    requires Descends(processes, root, p.parent) && p in processes
    ensures Descends(processes, root, p.pid)
  {
    var path :| Descent(processes, path) && path[0] == root && path[|path| - 1] == p.parent;
    var longer := path + [p.pid];
    forall i | 0 < i < |longer| ensures Process(longer[i], longer[i - 1]) in processes {
      if i == |path| { assert Process(longer[i], longer[i - 1]) == p; }
    }
    assert Descent(processes, longer);
  }

  lemma {:induction false} ClosedHasDescendants(processes: seq<Process>, pids: set<Pid>, path: seq<Pid>)
    requires Closed(processes, pids) && Descent(processes, path) && path[0] in pids
    ensures path[|path| - 1] in pids
  {
    if |path| > 1 {
      var init := path[..|path| - 1];
      assert forall i :: 0 < i < |init| ==> Process(init[i], init[i - 1]) == Process(path[i], path[i - 1]);
      ClosedHasDescendants(processes, pids, init);
      var last := Process(path[|path| - 1], init[|init| - 1]);
      assert last in processes;
      var k :| 0 <= k < |processes| && processes[k] == last;
    }
  }

  lemma SameSize<T>(a: set<T>, b: set<T>)
    requires a <= b && |a| == |b|
    ensures a == b
  {
    SubsetSize(a, b);
    assert |b - a| == 0;
  }

  lemma SubsetSize<T>(a: set<T>, b: set<T>)
    requires a <= b
    ensures |a| <= |b| && |b - a| == |b| - |a|
  {
    assert b == a + (b - a);
    assert |b| == |a| + |b - a|;
  }

  /** Grows the set in passes over the snapshot until a pass adds nothing. The
      result is exactly the descendants of the root, whatever the order. */
  method Descendants(processes: seq<Process>, root: Pid) returns (pids: set<Pid>)
    ensures forall pid :: pid in pids <==> Descends(processes, root, pid)
  {
    pids := {root};
    RootDescends(processes, root);
    ghost var universe := {root} + (set p | p in processes :: p.pid);
    var before := 0;
    while |pids| != before
      invariant before <= |pids|
      invariant root in pids && pids <= universe
      invariant forall pid <- pids :: Descends(processes, root, pid)
      invariant |pids| == before ==> Closed(processes, pids)
      decreases |universe| - before
    {
      before := |pids|;
      ghost var start := pids;
      for i := 0 to |processes|
        invariant start <= pids <= universe
        invariant forall pid <- pids :: Descends(processes, root, pid)
        invariant forall j :: 0 <= j < i && processes[j].parent in start ==> processes[j].pid in pids
      {
        if processes[i].parent in pids {
          ChildDescends(processes, root, processes[i]);
          pids := pids + {processes[i].pid};
        }
      }
      SubsetSize(start, pids);
      SubsetSize(pids, universe);
      if |pids| == before { SameSize(start, pids); }
    }
    forall pid | Descends(processes, root, pid) ensures pid in pids {
      var path :| Descent(processes, path) && path[0] == root && path[|path| - 1] == pid;
      ClosedHasDescendants(processes, pids, path);
    }
  }

  /** The descendants depend on the set of links alone. */
  lemma OrderIrrelevant(a: seq<Process>, b: seq<Process>, root: Pid, pid: Pid)
    requires forall p :: p in a <==> p in b
    ensures Descends(a, root, pid) <==> Descends(b, root, pid)
  {
    forall path ensures Descent(a, path) <==> Descent(b, path) {}
  }

  // ----- Totals -----

  const U64_MAX: nat := 0xFFFF_FFFF_FFFF_FFFF

  function SaturatingAdd(a: nat, b: nat): nat { if a + b > U64_MAX then U64_MAX else a + b }

  /** Counters of one process; both times count 100-nanosecond units. */
  datatype Sample = Sample(kernel: nat, user: nat, workingSet: nat, privateBytes: nat)

  datatype Halves = Halves(high: nat, low: nat)

  /** A time delivered in two 32-bit halves. */
  function FileTime(h: Halves): nat { h.high * 0x1_0000_0000 + h.low }

  lemma FileTimeExact(a: Halves, b: Halves)
    requires a.high < 0x1_0000_0000 && a.low < 0x1_0000_0000 && b.low < 0x1_0000_0000
    ensures FileTime(a) <= U64_MAX
    ensures FileTime(a) == FileTime(b) ==> a == b
  {}

  type Measure = Sample -> nat

  function CpuTime(s: Sample): nat { s.kernel + s.user }
  function WorkingSet(s: Sample): nat { s.workingSet }
  function PrivateBytes(s: Sample): nat { s.privateBytes }

  /** The true sum of a measure over the processes that could be sampled. */
  function Sum(pids: seq<Pid>, sampled: Pid -> Option<Sample>, measure: Measure): nat {
    if pids == [] then 0
    else
      var last := sampled(pids[|pids| - 1]);
      Sum(pids[..|pids| - 1], sampled, measure) + (if last.Some? then measure(last.value) else 0)
  }

  /** Processes are added up one by one, in any grouping. */
  lemma {:induction false} SumJoin(a: seq<Pid>, b: seq<Pid>, sampled: Pid -> Option<Sample>, measure: Measure)
    ensures Sum(a + b, sampled, measure) == Sum(a, sampled, measure) + Sum(b, sampled, measure)
  {
    if b == [] {
      assert a + b == a;
    } else {
      var init, last := b[..|b| - 1], b[|b| - 1];
      assert (a + b)[..|a + b| - 1] == a + init && (a + b)[|a + b| - 1] == last;
      SumJoin(a, init, sampled, measure);
    }
  }

  /** A sampled process counts with both its times, its working set and its private
      bytes, any other not at all. */
  lemma SumOne(pid: Pid, sampled: Pid -> Option<Sample>)
    ensures sampled(pid).None? ==> forall measure: Measure :: Sum([pid], sampled, measure) == 0
    ensures sampled(pid).Some? ==>
              var s := sampled(pid).value;
              && Sum([pid], sampled, CpuTime) == s.kernel + s.user
              && Sum([pid], sampled, WorkingSet) == s.workingSet
              && Sum([pid], sampled, PrivateBytes) == s.privateBytes
  {
    assert [pid][..0] == [];
    assert forall measure: Measure :: Sum([], sampled, measure) == 0;
  }

  /** The list holds, in order, the processes at these positions: those without a sample. */
  predicate ListedAt(pids: seq<Pid>, sampled: Pid -> Option<Sample>, listed: seq<Pid>, at: seq<nat>) {
    && Positions(at, |pids|) && |at| == |listed|
    && (forall k :: 0 <= k < |at| ==> listed[k] == pids[at[k]])
    && (forall i :: 0 <= i < |pids| ==> (i in at <==> sampled(pids[i]).None?))
  }

  lemma OneMoreListed(init: seq<Pid>, pid: Pid, sampled: Pid -> Option<Sample>, listed: seq<Pid>, at: seq<nat>)
    requires ListedAt(init, sampled, listed, at)
    ensures if sampled(pid).None? then ListedAt(init + [pid], sampled, listed + [pid], at + [|init|])
            else ListedAt(init + [pid], sampled, listed, at)
  {
    assert forall k :: 0 <= k < |at| ==> at[k] in at;
  }

  /** The processes that could not be sampled are listed in order. */
  lemma {:induction false} InaccessibleAre(pids: seq<Pid>, sampled: Pid -> Option<Sample>) returns (at: seq<nat>)
    ensures ListedAt(pids, sampled, Inaccessible(pids, sampled), at)
  {
    at := [];
    if pids != [] {
      var n := |pids| - 1;
      var init := pids[..n];
      at := InaccessibleAre(init, sampled);
      OneMoreListed(init, pids[n], sampled, Inaccessible(init, sampled), at);
      assert pids == init + [pids[n]];
      if sampled(pids[n]).None? { at := at + [n]; }
    }
  }

  function Inaccessible(pids: seq<Pid>, sampled: Pid -> Option<Sample>): (r: seq<Pid>)
    ensures forall p :: p in r <==> p in pids && sampled(p).None?
  {
    if pids == [] then []
    else Inaccessible(pids[..|pids| - 1], sampled) +
         (if sampled(pids[|pids| - 1]).None? then [pids[|pids| - 1]] else [])
  }

  function Capped(n: nat): nat { if n > U64_MAX then U64_MAX else n }

  predicate Ascending(s: seq<Pid>) { forall i, j :: 0 <= i < j < |s| ==> s[i] < s[j] }

  lemma {:induction false} LeastExists(pids: set<Pid>) returns (least: Pid)
    requires pids != {}
    ensures least in pids && forall p <- pids :: least <= p
  {
    var p :| p in pids;
    if forall q <- pids :: p <= q {
      least := p;
    } else {
      var smaller := set q | q in pids && q < p;
      var q :| q in pids && q < p;
      assert q in smaller && p !in smaller;
      least := LeastExists(smaller);
      forall r <- pids ensures least <= r {
        if r < p { assert r in smaller; }
      }
    }
  }

  /** The pids in the order a sorted set yields them. */
  method Sorted(pids: set<Pid>) returns (order: seq<Pid>)
    ensures Ascending(order) && |order| == |pids| && forall p :: p in order <==> p in pids
  {
    order := [];
    var left := pids;
    while left != {}
      invariant Ascending(order) && |order| + |left| == |pids| && left <= pids
      invariant forall p :: p in order || p in left <==> p in pids
      invariant forall p, q :: p in order && q in left ==> p < q
      decreases left
    {
      ghost var least := LeastExists(left);
      var p :| p in left && forall q <- left :: p <= q;
      assert forall i :: 0 <= i < |order| ==> order[i] in order;
      order := order + [p];
      left := left - {p};
    }
  }

  datatype TreeSample = TreeSample(cpu: nat, workingSet: nat, privateBytes: nat, processCount: nat,
                                   discovered: nat, inaccessible: seq<Pid>)

  /** Totals are the true sums cut off at the largest 64-bit number, and every
      discovered process is either counted or listed as inaccessible. */
  method SampleTree(processes: seq<Process>, root: Pid, sampled: Pid -> Option<Sample>)
    returns (r: TreeSample, order: seq<Pid>)
    ensures Ascending(order) && forall p :: p in order <==> Descends(processes, root, p)
    ensures r.cpu == Capped(Sum(order, sampled, CpuTime))
    ensures r.workingSet == Capped(Sum(order, sampled, WorkingSet))
    ensures r.privateBytes == Capped(Sum(order, sampled, PrivateBytes))
    ensures r.inaccessible == Inaccessible(order, sampled)
    ensures r.processCount + |r.inaccessible| == r.discovered == |order|
  {
    var pids := Descendants(processes, root);
    order := Sorted(pids);
    r := TreeSample(0, 0, 0, 0, |pids|, []);
    for i := 0 to |order|
      invariant r.cpu == Capped(Sum(order[..i], sampled, CpuTime))
      invariant r.workingSet == Capped(Sum(order[..i], sampled, WorkingSet))
      invariant r.privateBytes == Capped(Sum(order[..i], sampled, PrivateBytes))
      invariant r.inaccessible == Inaccessible(order[..i], sampled)
      invariant r.processCount + |r.inaccessible| == i && r.discovered == |pids|
    {
      assert order[..i + 1][..i] == order[..i];
      match sampled(order[i]) {
        case Some(s) =>
          r := r.(cpu := SaturatingAdd(r.cpu, SaturatingAdd(s.kernel, s.user)),
                  workingSet := SaturatingAdd(r.workingSet, s.workingSet),
                  privateBytes := SaturatingAdd(r.privateBytes, s.privateBytes),
                  processCount := r.processCount + 1);
        case None =>
          r := r.(inaccessible := r.inaccessible + [order[i]]);
      }
    }
    assert order[..|order|] == order;
  }
}
