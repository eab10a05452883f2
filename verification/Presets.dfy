/** Drafts of provider settings: fresh preset ids and merging of fetched models. */
module Presets {
  import opened Text

  const U32_MAX: nat := 0xFFFF_FFFF
  const DEFAULT_LABEL := "自定义预设"

  datatype Preset = Preset(id: string, caption: string, kind: string, model: Option<string>,
                           effort: Option<string>, enabled: bool)

  datatype Model = Model(id: string, caption: string, source: string, backend: string)

  const REMOTE := "remote"
  const BACKEND := "native-agentkit"

  predicate HasPreset(presets: seq<Preset>, id: string) {
    exists i :: 0 <= i < |presets| && presets[i].id == id
  }

  predicate DistinctPresets(presets: seq<Preset>) {
    forall i, j :: 0 <= i < j < |presets| ==> presets[i].id != presets[j].id
  }

  // ----- Candidate ids -----

  /** The number of ids the search can try: the bare one and suffixes 2 to 2^32 - 1. */
  const CANDIDATES: nat := U32_MAX

  function Candidate(base: string, k: nat): string {
    if k == 0 then "custom-" + base else "custom-" + base + "-" + Decimal(k + 1)
  }

  lemma CandidatesInjective(base: string, k: nat, l: nat)
    requires Candidate(base, k) == Candidate(base, l)
    ensures k == l
  {
    var bare := "custom-" + base;
    if k > 0 && l > 0 {
      var a, b := Candidate(base, k), Candidate(base, l);
      assert a == bare + "-" + Decimal(k + 1) && b == bare + "-" + Decimal(l + 1);
      assert a[|bare| + 1..] == Decimal(k + 1) && b[|bare| + 1..] == Decimal(l + 1);
      DecimalInjective(k + 1, l + 1);
    }
  }

  function CandidateSet(base: string, n: nat): set<string> {
    if n == 0 then {} else CandidateSet(base, n - 1) + {Candidate(base, n - 1)}
  }

  lemma {:induction false} CandidateSetSize(base: string, n: nat)
    ensures |CandidateSet(base, n)| == n
    ensures forall id <- CandidateSet(base, n) :: exists k :: 0 <= k < n && id == Candidate(base, k)
  {
    if n > 0 {
      CandidateSetSize(base, n - 1);
      if Candidate(base, n - 1) in CandidateSet(base, n - 1) {
        var k :| 0 <= k < n - 1 && Candidate(base, n - 1) == Candidate(base, k);
        CandidatesInjective(base, n - 1, k);
      }
    }
  }

  /** The first `n` candidates are all in use. */
  ghost predicate AllUsed(presets: seq<Preset>, base: string, n: nat) {
    forall k :: 0 <= k < n ==> HasPreset(presets, Candidate(base, k))
  }

  function IdSet(presets: seq<Preset>): set<string> {
    if presets == [] then {} else IdSet(presets[1..]) + {presets[0].id}
  }

  lemma {:induction false} IdSetSize(presets: seq<Preset>)
    ensures |IdSet(presets)| <= |presets|
    ensures forall id :: id in IdSet(presets) <==> HasPreset(presets, id)
  {
    if presets != [] {
      IdSetSize(presets[1..]);
      forall id ensures id in IdSet(presets) <==> HasPreset(presets, id) {
        if HasPreset(presets[1..], id) {
          var i :| 0 <= i < |presets[1..]| && presets[1..][i].id == id;
          assert presets[i + 1].id == id;
        }
        if HasPreset(presets, id) && id != presets[0].id {
          var i :| 0 <= i < |presets| && presets[i].id == id;
          assert presets[1..][i - 1].id == id;
        }
      }
    }
  }

  lemma {:induction false} UsedCandidatesAreIds(presets: seq<Preset>, base: string, n: nat)
    requires AllUsed(presets, base, n)
    ensures CandidateSet(base, n) <= IdSet(presets)
  {
    if n > 0 {
      UsedCandidatesAreIds(presets, base, n - 1);
      InIdSet(presets, Candidate(base, n - 1));
    }
  }

  lemma InIdSet(presets: seq<Preset>, id: string)
    requires HasPreset(presets, id)
    ensures id in IdSet(presets)
  {
    IdSetSize(presets);
  }

  lemma UsedAreFewer(presets: seq<Preset>, base: string, n: nat)
    requires AllUsed(presets, base, n)
    ensures n <= |presets|
  {
    var ids, tried := IdSet(presets), CandidateSet(base, n);
    UsedCandidatesAreIds(presets, base, n);
    CandidateSetSize(base, n);
    IdSetSize(presets);
    assert ids == tried + (ids - tried);
  }

  /** With fewer presets than candidates, some candidate is free. */
  lemma SomeCandidateFree(presets: seq<Preset>, base: string)
    requires |presets| < CANDIDATES
    ensures exists k: nat :: Free(presets, base, k)
  {
    if forall k: nat :: !Free(presets, base, k) {
      forall k | 0 <= k < CANDIDATES ensures HasPreset(presets, Candidate(base, k)) {
        assert !Free(presets, base, k);
      }
      UsedAreFewer(presets, base, CANDIDATES);
    }
  }

  /** The search's next id and suffix. */
  function SearchStep(base: string, suffix: nat): (string, nat) {
    ("custom-" + base + "-" + Decimal(suffix), if suffix >= U32_MAX then U32_MAX else suffix + 1)
  }

  /** The id under test after `n` rounds of the search, and the suffix to try next. */
  function SearchState(base: string, n: nat): (string, nat) {
    if n == 0 then ("custom-" + base, 2) else SearchStep(base, SearchState(base, n - 1).1)
  }

  function Least(a: nat, b: nat): nat { if a < b then a else b }

  lemma {:induction false} SearchTriesCandidates(base: string, n: nat, last: nat)
    requires last == CANDIDATES - 1
    ensures SearchState(base, n) == (Candidate(base, Least(n, last)), Least(n + 2, last + 1))
  {
    if n > 0 {
      SearchTriesCandidates(base, n - 1, last);
      var suffix := SearchState(base, n - 1).1;
      assert suffix == Least(n, last) + 1;
    }
  }

  predicate Free(presets: seq<Preset>, base: string, k: nat) {
    k < CANDIDATES && !HasPreset(presets, Candidate(base, k))
  }

  predicate StopsAfter(presets: seq<Preset>, base: string, n: nat) {
    !HasPreset(presets, SearchState(base, n).0)
  }

  /** The search stops exactly when some candidate is free. */
  lemma SearchStopsExactly(presets: seq<Preset>, base: string)
    ensures (exists n: nat :: StopsAfter(presets, base, n)) <==> (exists k: nat :: Free(presets, base, k))
  {
    forall n: nat | StopsAfter(presets, base, n) ensures exists k: nat :: Free(presets, base, k) {
      SearchTriesCandidates(base, n, CANDIDATES - 1);
      assert Free(presets, base, Least(n, CANDIDATES - 1));
    }
    forall k: nat | Free(presets, base, k) ensures exists n: nat :: StopsAfter(presets, base, n) {
      SearchTriesCandidates(base, k, CANDIDATES - 1);
      assert StopsAfter(presets, base, k);
    }
  }

  // ----- Merging -----

  function CaptionOr(item: Model, other: string): string { if Blank(item.caption) then other else item.caption }

  predicate HasModel(pool: seq<Model>, id: string) { exists i :: 0 <= i < |pool| && pool[i].id == id }

  function FirstModel(pool: seq<Model>, id: string): (i: nat)
    requires HasModel(pool, id)
    ensures i < |pool| && pool[i].id == id && forall j :: 0 <= j < i ==> pool[j].id != id
  {
    if pool[0].id == id then 0
    else
      assert HasModel(pool[1..], id) by {
        var i :| 0 <= i < |pool| && pool[i].id == id;
        assert pool[1..][i - 1].id == id;
      }
      1 + FirstModel(pool[1..], id)
  }

  /** Fetched models with trimmed, non-blank and distinct ids; a blank label
      becomes the id. */
  function Normalize(models: seq<Model>): seq<Model> {
    if models == [] then []
    else
      var earlier, m := Normalize(models[..|models| - 1]), models[|models| - 1];
      if Blank(m.id) || HasModel(earlier, Trim(m.id)) then earlier
      else earlier + [m.(id := Trim(m.id), caption := if Blank(m.caption) then Trim(m.id) else Trim(m.caption))]
  }

  function MergeOne(pool: seq<Model>, item: Model): seq<Model> {
    if HasModel(pool, item.id) then
      var i := FirstModel(pool, item.id);
      pool[i := Model(pool[i].id, CaptionOr(pool[i], item.caption), REMOTE, BACKEND)]
    else pool + [item.(source := REMOTE, backend := BACKEND)]
  }

  function Merge(pool: seq<Model>, items: seq<Model>): seq<Model> {
    if items == [] then pool else MergeOne(Merge(pool, items[..|items| - 1]), items[|items| - 1])
  }

  ghost predicate FirstFree(presets: seq<Preset>, base: string, k: nat) {
    Free(presets, base, k) && AllUsed(presets, base, k)
  }

  /** The bare id if it is unused, else the one with the smallest unused number. */
  lemma FirstFreeExactly(presets: seq<Preset>, base: string, id: string)
    requires exists k: nat :: FirstFree(presets, base, k) && id == Candidate(base, k)
    ensures var bare := "custom-" + base;
            if !HasPreset(presets, bare) then id == bare
            else exists n: nat :: 2 <= n <= 4_294_967_295 && id == bare + "-" + Decimal(n) &&
                   forall m :: 2 <= m < n ==> HasPreset(presets, bare + "-" + Decimal(m))
  {
    var k: nat :| FirstFree(presets, base, k) && id == Candidate(base, k);
    var bare := "custom-" + base;
    assert Candidate(base, 0) == bare;
    if HasPreset(presets, bare) {
      assert k > 0 && id == bare + "-" + Decimal(k + 1);
      forall m | 2 <= m < k + 1 ensures HasPreset(presets, bare + "-" + Decimal(m)) {
        assert Candidate(base, m - 1) == bare + "-" + Decimal(m);
      }
    }
  }

  lemma CandidateNext(base: string, k: nat, suffix: nat)
    requires suffix == Least(k + 2, U32_MAX) && k + 1 < CANDIDATES
    ensures "custom-" + base + "-" + Decimal(suffix) == Candidate(base, k + 1)
  {}

  /** Searches the candidates for the first free one. */
  method FreshId(presets: seq<Preset>, base: string) returns (id: string)
    requires exists k: nat :: Free(presets, base, k)
    ensures exists k: nat :: FirstFree(presets, base, k) && id == Candidate(base, k)
  {
    ghost var free: nat :| Free(presets, base, free);
    var suffix := 2;
    ghost var k := 0;
    id := "custom-" + base;
    while HasPreset(presets, id)
      invariant k <= free && id == Candidate(base, k) && suffix == Least(k + 2, U32_MAX)
      invariant AllUsed(presets, base, k)
      decreases free - k
    {
      assert k != free;
      CandidateNext(base, k, suffix);
      id := "custom-" + base + "-" + Decimal(suffix);
      suffix := if suffix >= U32_MAX then U32_MAX else suffix + 1;
      k := k + 1;
    }
    assert FirstFree(presets, base, k);
  }

  class ProviderAiSettings {
    var presetDrafts: seq<Preset>
    var poolDrafts: seq<Model>

    /** Adds a preset under the first free id derived from the base. */
    method AddCustomPreset(caption: string, base: string) returns (id: string)
      requires exists k: nat :: Free(presetDrafts, base, k)
      modifies this`presetDrafts
      ensures !HasPreset(old(presetDrafts), id)
      ensures presetDrafts == old(presetDrafts) +
              [Preset(id, if Blank(caption) then DEFAULT_LABEL else Trim(caption), "custom", None, None, true)]
      ensures exists k: nat :: FirstFree(old(presetDrafts), base, k) && id == Candidate(base, k)
      ensures old(DistinctPresets(presetDrafts)) ==> DistinctPresets(presetDrafts)
    {
      id := FreshId(presetDrafts, base);
      presetDrafts := presetDrafts +
        [Preset(id, if Blank(caption) then DEFAULT_LABEL else Trim(caption), "custom", None, None, true)];
    }

    /** Updates the pool's first model with the item's id, or appends the item. */
    method MergeItem(item: Model) returns (isNew: bool)
      modifies this`poolDrafts
      ensures poolDrafts == MergeOne(old(poolDrafts), item)
      ensures |poolDrafts| == |old(poolDrafts)| + if isNew then 1 else 0
    {
      var j := 0;
      while j < |poolDrafts| && poolDrafts[j].id != item.id
        invariant 0 <= j <= |poolDrafts| && forall k :: 0 <= k < j ==> poolDrafts[k].id != item.id
      {
        j := j + 1;
      }
      isNew := j == |poolDrafts|;
      if isNew {
        poolDrafts := poolDrafts + [item.(source := REMOTE, backend := BACKEND)];
      } else {
        var existing := poolDrafts[j];
        if Blank(existing.caption) { existing := existing.(caption := item.caption); }
        poolDrafts := poolDrafts[j := existing.(source := REMOTE, backend := BACKEND)];
      }
    }

    method MergeAll(items: seq<Model>) returns (added: nat)
      modifies this`poolDrafts
      ensures poolDrafts == Merge(old(poolDrafts), items)
      ensures added == |poolDrafts| - |old(poolDrafts)|
    {
      added := 0;
      for i := 0 to |items|
        invariant poolDrafts == Merge(old(poolDrafts), items[..i])
        invariant added == |poolDrafts| - |old(poolDrafts)|
      {
        assert items[..i + 1][..i] == items[..i];
        var isNew := MergeItem(items[i]);
        if isNew { added := added + 1; }
      }
      assert items[..|items|] == items;
    }

    /** Merges fetched models into the pool and counts the ones that were new. `joined`
        lists their positions. */
    method MergeFetchedModels(models: seq<Model>) returns (added: nat, ghost joined: seq<nat>)
      modifies this`poolDrafts
      ensures poolDrafts == Merge(old(poolDrafts), Normalize(models))
      ensures added == |poolDrafts| - |old(poolDrafts)| == |joined|
      // The new models, in the order fetched, are the first of each id that is not blank
      // and was not in the pool; a blank label becomes the id.
      ensures Positions(joined, |models|)
      ensures forall i :: 0 <= i < |models| ==>
                (i in joined <==>
                   && !AllWhitespace(models[i].id)
                   && (forall p :: 0 <= p < |old(poolDrafts)| ==> old(poolDrafts)[p].id != Trim(models[i].id))
                   && (forall j :: 0 <= j < i ==> Trim(models[j].id) != Trim(models[i].id)))
      ensures forall k :: 0 <= k < |joined| ==>
                var m := models[joined[k]];
                poolDrafts[|old(poolDrafts)| + k] ==
                Model(Trim(m.id), if AllWhitespace(m.caption) then Trim(m.id) else Trim(m.caption),
                      "remote", "native-agentkit")
      // A model of the pool keeps its place and its label, unless that is blank. The first
      // with a fetched id is marked and takes the fetched label for a blank one.
      ensures forall p :: 0 <= p < |old(poolDrafts)| ==>
                var a, b := old(poolDrafts)[p], poolDrafts[p];
                if (exists q :: 0 <= q < p && old(poolDrafts)[q].id == a.id) ||
                   (forall m <- models :: AllWhitespace(m.id) || Trim(m.id) != a.id) then b == a
                else
                  exists i :: 0 <= i < |models| && FirstWithId(models, i, a.id) &&
                    b == Model(a.id, if !AllWhitespace(a.caption) then a.caption else LabelOf(models[i]),
                               "remote", "native-agentkit")
    {
      var items := NormalizePool(models);
      added := MergeAll(items);
      joined := FetchedMerge(old(poolDrafts), models);
      JoinedMeans(old(poolDrafts), models, joined, poolDrafts);
      KeptMeans(old(poolDrafts), models, joined, poolDrafts);
    }
  }

  ghost predicate SameIds(ids: set<string>, pool: seq<Model>) {
    forall id :: id in ids <==> HasModel(pool, id)
  }

  lemma SameIdsSnoc(ids: set<string>, pool: seq<Model>, m: Model)
    requires SameIds(ids, pool)
    ensures SameIds(ids + {m.id}, pool + [m])
  {
    var after := pool + [m];
    assert after[|pool|] == m;
    forall x ensures HasModel(after, x) <==> HasModel(pool, x) || x == m.id {
      assert forall j :: 0 <= j < |pool| ==> after[j] == pool[j];
    }
  }

  method NormalizePool(models: seq<Model>) returns (pool: seq<Model>)
    ensures pool == Normalize(models)
  {
    pool := [];
    var seen: set<string> := {};
    for i := 0 to |models|
      invariant pool == Normalize(models[..i]) && SameIds(seen, pool)
    {
      assert models[..i + 1][..i] == models[..i];
      var m := models[i];
      var id := Trim(m.id);
      if id == "" || id in seen { continue; }
      var item := m.(id := id, caption := if Blank(m.caption) then id else Trim(m.caption));
      SameIdsSnoc(seen, pool, item);
      seen := seen + {id};
      pool := pool + [item];
    }
    assert models[..|models|] == models;
  }

  predicate DistinctModels(pool: seq<Model>) {
    forall i, j :: 0 <= i < j < |pool| ==> pool[i].id != pool[j].id
  }

  predicate Labelled(pool: seq<Model>) { forall i :: 0 <= i < |pool| ==> !Blank(pool[i].caption) }

  /** Ids are distinct, trimmed and not blank, and so are labels. */
  predicate Proper(pool: seq<Model>) {
    && DistinctModels(pool) && Labelled(pool)
    && forall i :: 0 <= i < |pool| ==> !Blank(pool[i].id) && Trim(pool[i].id) == pool[i].id
  }

  lemma ProperSnoc(pool: seq<Model>, m: Model)
    requires Proper(pool) && !HasModel(pool, m.id)
    requires !Blank(m.caption) && !Blank(m.id) && Trim(m.id) == m.id
    ensures Proper(pool + [m])
  {}

  /** Normalized models have distinct, trimmed, non-blank ids and non-blank labels. */
  lemma {:induction false} NormalizedProper(models: seq<Model>)
    ensures DistinctModels(Normalize(models)) && Labelled(Normalize(models))
    ensures forall i :: 0 <= i < |Normalize(models)| ==>
              !Blank(Normalize(models)[i].id) && Trim(Normalize(models)[i].id) == Normalize(models)[i].id
  {
    if models != [] {
      var earlier, m := Normalize(models[..|models| - 1]), models[|models| - 1];
      NormalizedProper(models[..|models| - 1]);
      if !Blank(m.id) && !HasModel(earlier, Trim(m.id)) {
        TrimTwice(m.id);
        TrimTwice(m.caption);
        ProperSnoc(earlier, m.(id := Trim(m.id), caption := if Blank(m.caption) then Trim(m.id) else Trim(m.caption)));
      }
    }
  }

  /** The model is in the pool, labelled and marked as fetched. */
  predicate Merged(pool: seq<Model>, item: Model) {
    HasModel(pool, item.id) &&
    var m := pool[FirstModel(pool, item.id)];
    !Blank(m.caption) && m.source == REMOTE && m.backend == BACKEND
  }

  /** The ids `a` are kept in place in `b`, and labels that were not blank too. */
  predicate Keeps(a: seq<Model>, b: seq<Model>) {
    && |a| <= |b|
    && forall i :: 0 <= i < |a| ==> b[i].id == a[i].id && (!Blank(a[i].caption) ==> b[i].caption == a[i].caption)
  }

  lemma FirstIs(pool: seq<Model>, id: string, i: nat)
    requires i < |pool| && pool[i].id == id && forall j :: 0 <= j < i ==> pool[j].id != id
    ensures HasModel(pool, id) && FirstModel(pool, id) == i
  {}

  lemma MergeOneSteps(pool: seq<Model>, item: Model)
    requires !Blank(item.caption)
    ensures var r := MergeOne(pool, item);
            && Keeps(pool, r) && Merged(r, item)
            && (Labelled(pool) ==> Labelled(r)) && (DistinctModels(pool) ==> DistinctModels(r))
            && (|r| == |pool| <==> HasModel(pool, item.id))
  {
    var r := MergeOne(pool, item);
    if HasModel(pool, item.id) {
      FirstIs(r, item.id, FirstModel(pool, item.id));
    } else {
      FirstIs(r, item.id, |pool|);
    }
  }

  lemma MergedStays(pool: seq<Model>, item: Model, other: Model)
    requires Merged(pool, item) && !Blank(other.caption)
    ensures Merged(MergeOne(pool, other), item)
  {
    FirstIs(MergeOne(pool, other), item.id, FirstModel(pool, item.id));
  }

  lemma {:induction false} MergeKeeps(pool: seq<Model>, items: seq<Model>)
    requires Labelled(items)
    ensures Keeps(pool, Merge(pool, items))
    ensures DistinctModels(pool) ==> DistinctModels(Merge(pool, items))
    ensures Labelled(pool) ==> Labelled(Merge(pool, items))
  {
    if items != [] {
      var init, last := items[..|items| - 1], items[|items| - 1];
      MergeKeeps(pool, init);
      MergeOneSteps(Merge(pool, init), last);
    }
  }

  lemma {:induction false} AllMerged(pool: seq<Model>, items: seq<Model>, i: nat)
    requires Labelled(items) && i < |items|
    ensures Merged(Merge(pool, items), items[i])
  {
    var init, last := items[..|items| - 1], items[|items| - 1];
    assert !Blank(last.caption);
    if i < |init| {
      AllMerged(pool, init, i);
      MergedStays(Merge(pool, init), init[i], last);
    } else {
      MergeOneSteps(Merge(pool, init), last);
    }
  }

  lemma {:induction false} AllMergedFixed(pool: seq<Model>, items: seq<Model>)
    requires forall i :: 0 <= i < |items| ==> Merged(pool, items[i])
    ensures Merge(pool, items) == pool
  {
    if items != [] {
      AllMergedFixed(pool, items[..|items| - 1]);
    }
  }

  /** Merging fetched models keeps the pool's ids, their order and their labels,
      keeps ids distinct, and merging the same models again adds nothing. */
  lemma {:induction false} MergeIsIdempotent(pool: seq<Model>, models: seq<Model>)
    ensures var items := Normalize(models); var r := Merge(pool, items);
            && Keeps(pool, r) && Merge(r, items) == r
            && (DistinctModels(pool) ==> DistinctModels(r)) && (Labelled(pool) ==> Labelled(r))
  {
    NormalizedProper(models);
    MergeKeeps(pool, Normalize(models));
    forall i | 0 <= i < |Normalize(models)|
      ensures Merged(Merge(pool, Normalize(models)), Normalize(models)[i])
    {
      AllMerged(pool, Normalize(models), i);
    }
    AllMergedFixed(Merge(pool, Normalize(models)), Normalize(models));
  }

  // ----- What a merge adds and changes -----

  function LabelOf(m: Model): string { if AllWhitespace(m.caption) then Trim(m.id) else Trim(m.caption) }

  /** The model at `i` is the first whose trimmed id this is, and the id is not blank. */
  predicate FirstWithId(models: seq<Model>, i: nat, id: string) {
    && i < |models| && !AllWhitespace(models[i].id) && Trim(models[i].id) == id
    && forall j :: 0 <= j < i ==> Trim(models[j].id) != id
  }

  function Cleaned(m: Model): Model { m.(id := Trim(m.id), caption := LabelOf(m)) }

  /** The items are the models at these positions, cleaned: the first of every id. */
  predicate KeptAt(models: seq<Model>, kept: seq<nat>, items: seq<Model>) {
    && Positions(kept, |models|) && |kept| == |items|
    && (forall i :: 0 <= i < |models| ==> (i in kept <==> FirstWithId(models, i, Trim(models[i].id))))
    && (forall k :: 0 <= k < |kept| ==> items[k] == Cleaned(models[kept[k]]))
  }

  lemma {:induction false} KeptPositions(models: seq<Model>) returns (kept: seq<nat>)
    ensures KeptAt(models, kept, Normalize(models))
  {
    kept := [];
    if models != [] {
      var n := |models| - 1;
      var init, m := models[..n], models[n];
      kept := KeptPositions(init);
      assert models == init + [m];
      KeptSnoc(init, m, kept, Normalize(init));
      NewExactly(init, m, kept, Normalize(init));
      BlankExactly(m.id);
      BlankExactly(m.caption);
      if FirstWithId(models, n, Trim(m.id)) { kept := kept + [n]; }
    }
  }

  lemma KeptSnoc(init: seq<Model>, m: Model, kept: seq<nat>, items: seq<Model>)
    requires KeptAt(init, kept, items)
    ensures if FirstWithId(init + [m], |init|, Trim(m.id))
            then KeptAt(init + [m], kept + [|init|], items + [Cleaned(m)]) else KeptAt(init + [m], kept, items)
  {
    var all := init + [m];
    forall i | 0 <= i < |init| ensures i in kept <==> FirstWithId(all, i, Trim(all[i].id)) {
      FirstStays(init, m, i, Trim(init[i].id));
    }
    forall k | 0 <= k < |kept| ensures kept[k] < |init| && items[k] == Cleaned(all[kept[k]]) {}
    if FirstWithId(all, |init|, Trim(m.id)) { KeptOneMore(all, kept, items); } else { assert |init| !in kept; }
  }

  lemma KeptOneMore(all: seq<Model>, kept: seq<nat>, items: seq<Model>)
    requires all != [] && Positions(kept, |all| - 1) && |kept| == |items|
    requires var n := |all| - 1;
             && (forall i :: 0 <= i < n ==> (i in kept <==> FirstWithId(all, i, Trim(all[i].id))))
             && FirstWithId(all, n, Trim(all[n].id))
    requires forall k :: 0 <= k < |kept| ==> items[k] == Cleaned(all[kept[k]])
    ensures KeptAt(all, kept + [|all| - 1], items + [Cleaned(all[|all| - 1])])
  {}

  lemma FirstStays(init: seq<Model>, m: Model, i: nat, id: string)
    requires i < |init|
    ensures FirstWithId(init + [m], i, id) <==> FirstWithId(init, i, id)
  {
    var all := init + [m];
    assert forall j :: 0 <= j < |init| ==> all[j] == init[j];
  }

  /** A model is kept exactly if its id is not blank and no kept model has it. */
  lemma NewExactly(init: seq<Model>, m: Model, kept: seq<nat>, items: seq<Model>)
    requires KeptAt(init, kept, items)
    ensures FirstWithId(init + [m], |init|, Trim(m.id)) <==> !AllWhitespace(m.id) && !HasModel(items, Trim(m.id))
  {
    var all := init + [m];
    assert forall i :: 0 <= i < |init| ==> all[i] == init[i];
    BlankExactly(m.id);
    if !AllWhitespace(m.id) { KeptHas(init, kept, items, Trim(m.id)); }
  }

  /** An id is among the kept models exactly if some fetched model has it. */
  lemma KeptHas(models: seq<Model>, kept: seq<nat>, items: seq<Model>, id: string)
    requires KeptAt(models, kept, items) && id != ""
    ensures HasModel(items, id) <==> exists j :: 0 <= j < |models| && Trim(models[j].id) == id
  {
    if j :| 0 <= j < |models| && Trim(models[j].id) == id {
      var i := FirstTrimmed(models, id, j);
      BlankExactly(models[i].id);
      assert FirstWithId(models, i, Trim(models[i].id));
      var k :| 0 <= k < |kept| && kept[k] == i;
      assert items[k].id == id;
    }
  }

  lemma {:induction false} FirstTrimmed(models: seq<Model>, id: string, j: nat) returns (i: nat)
    requires j < |models| && Trim(models[j].id) == id
    ensures i <= j && Trim(models[i].id) == id && forall k :: 0 <= k < i ==> Trim(models[k].id) != id
    decreases j
  {
    if k :| 0 <= k < j && Trim(models[k].id) == id {
      i := FirstTrimmed(models, id, k);
    } else {
      i := j;
    }
  }

  function Marked(m: Model): Model { m.(source := REMOTE, backend := BACKEND) }

  /** What becomes of the model at `p`: the first with a merged id is marked and takes
      the merged label for a blank one. */
  predicate MergedAs(pool: seq<Model>, items: seq<Model>, p: nat, b: Model)
    requires p < |pool|
  {
    if (exists q :: 0 <= q < p && pool[q].id == pool[p].id) || !HasModel(items, pool[p].id) then b == pool[p]
    else b == Marked(pool[p]).(caption := CaptionOr(pool[p], items[FirstModel(items, pool[p].id)].caption))
  }

  /** The items at these positions were new and are appended, the others updated their
      model. */
  predicate AppendedAt(pool: seq<Model>, items: seq<Model>, added: seq<nat>, r: seq<Model>) {
    && Positions(added, |items|) && |r| == |pool| + |added|
    && (forall i :: 0 <= i < |items| ==> (i in added <==> !HasModel(pool, items[i].id)))
    && (forall k :: 0 <= k < |added| ==> r[|pool| + k] == Marked(items[added[k]]))
    && (forall p :: 0 <= p < |pool| ==> MergedAs(pool, items, p, r[p]))
  }

  /** Merging models of distinct ids appends those whose id is new, in order. */
  lemma {:induction false} MergeAppends(pool: seq<Model>, items: seq<Model>) returns (added: seq<nat>)
    requires DistinctModels(items)
    ensures AppendedAt(pool, items, added, Merge(pool, items))
  {
    added := [];
    if items != [] {
      var n := |items| - 1;
      var init, x := items[..n], items[n];
      added := MergeAppends(pool, init);
      assert items == init + [x];
      LooksUp(pool, init, Merge(pool, init), added, x);
      if HasModel(pool, x.id) {
        UpdatedOne(pool, init, Merge(pool, init), added, x);
      } else {
        AppendedOne(pool, init, Merge(pool, init), added, x);
        added := added + [n];
      }
    }
  }

  /** A further item meets its model in the pool, or none. */
  lemma LooksUp(pool: seq<Model>, init: seq<Model>, before: seq<Model>, added: seq<nat>, x: Model)
    requires DistinctModels(init + [x]) && AppendedAt(pool, init, added, before)
    ensures HasModel(before, x.id) <==> HasModel(pool, x.id)
    ensures HasModel(pool, x.id) ==> FirstModel(before, x.id) == FirstModel(pool, x.id)
    ensures !HasModel(init, x.id)
  {
    var all := init + [x];
    assert forall i :: 0 <= i < |init| ==> all[i] == init[i];
    assert all[|init|] == x;
    forall p | 0 <= p < |pool| ensures before[p].id == pool[p].id { assert MergedAs(pool, init, p, before[p]); }
    forall p | |pool| <= p < |before| ensures before[p].id != x.id {
      var k := p - |pool|;
      assert before[|pool| + k] == Marked(init[added[k]]);
    }
    if HasModel(pool, x.id) { FirstIs(before, x.id, FirstModel(pool, x.id)); }
  }

  lemma HasSnoc(init: seq<Model>, x: Model, id: string)
    ensures HasModel(init + [x], id) <==> HasModel(init, id) || x.id == id
    ensures HasModel(init, id) ==> FirstModel(init + [x], id) == FirstModel(init, id)
    ensures !HasModel(init, id) && x.id == id ==> FirstModel(init + [x], id) == |init|
  {
    var all := init + [x];
    assert forall i :: 0 <= i < |init| ==> all[i] == init[i];
    assert all[|init|] == x;
    if HasModel(init, id) { FirstIs(all, id, FirstModel(init, id)); }
    if !HasModel(init, id) && x.id == id { FirstIs(all, id, |init|); }
  }

  lemma AppendedOne(pool: seq<Model>, init: seq<Model>, before: seq<Model>, added: seq<nat>, x: Model)
    requires AppendedAt(pool, init, added, before) && !HasModel(pool, x.id)
    ensures AppendedAt(pool, init + [x], added + [|init|], before + [Marked(x)])
  {
    var items, r := init + [x], before + [Marked(x)];
    assert forall k :: 0 <= k < |added| ==> added[k] in added;
    forall p | 0 <= p < |pool| ensures MergedAs(pool, items, p, r[p]) {
      assert MergedAs(pool, init, p, before[p]);
      HasSnoc(init, x, pool[p].id);
    }
  }

  lemma UpdatedOne(pool: seq<Model>, init: seq<Model>, before: seq<Model>, added: seq<nat>, x: Model)
    requires AppendedAt(pool, init, added, before) && HasModel(pool, x.id) && !HasModel(init, x.id)
    requires HasModel(before, x.id) && FirstModel(before, x.id) == FirstModel(pool, x.id)
    ensures AppendedAt(pool, init + [x], added, MergeOne(before, x))
  {
    var items, r, f := init + [x], MergeOne(before, x), FirstModel(pool, x.id);
    assert forall k :: 0 <= k < |added| ==> added[k] in added;
    forall p | 0 <= p < |pool| ensures MergedAs(pool, items, p, r[p]) {
      assert MergedAs(pool, init, p, before[p]);
      HasSnoc(init, x, pool[p].id);
    }
  }

  // ----- What a fetch adds and changes -----

  /** What a fetch does to the pool, in terms of the fetched models. */
  predicate FetchedAt(pool: seq<Model>, models: seq<Model>, joined: seq<nat>, r: seq<Model>) {
    && |r| == |pool| + |joined| && Positions(joined, |models|)
    && (forall i :: 0 <= i < |models| ==>
          (i in joined <==> FirstWithId(models, i, Trim(models[i].id)) && !HasModel(pool, Trim(models[i].id))))
    && (forall k :: 0 <= k < |joined| ==> r[|pool| + k] == Marked(Cleaned(models[joined[k]])))
    && forall p :: 0 <= p < |pool| ==> FetchedAs(pool, models, p, r[p])
  }

  predicate FetchedAs(pool: seq<Model>, models: seq<Model>, p: nat, b: Model)
    requires p < |pool|
  {
    var a := pool[p];
    if (exists q :: 0 <= q < p && pool[q].id == a.id) ||
       (forall m <- models :: AllWhitespace(m.id) || Trim(m.id) != a.id) then b == a
    else
      exists i :: 0 <= i < |models| && FirstWithId(models, i, a.id) &&
        b == Marked(a).(caption := if !AllWhitespace(a.caption) then a.caption else LabelOf(models[i]))
  }

  lemma FetchedMerge(pool: seq<Model>, models: seq<Model>) returns (joined: seq<nat>)
    ensures FetchedAt(pool, models, joined, Merge(pool, Normalize(models)))
  {
    var items := Normalize(models);
    NormalizedProper(models);
    var kept := KeptPositions(models);
    var added := MergeAppends(pool, items);
    joined := seq(|added|, k requires 0 <= k < |added| => kept[added[k]]);
    JoinedExactly(pool, models, kept, items, added, joined);
    forall p | 0 <= p < |pool| ensures FetchedAs(pool, models, p, Merge(pool, items)[p]) {
      FetchedIsMerged(pool, models, kept, items, p, Merge(pool, items)[p]);
    }
  }

  lemma JoinedExactly(pool: seq<Model>, models: seq<Model>, kept: seq<nat>, items: seq<Model>, added: seq<nat>,
                      joined: seq<nat>)
    requires KeptAt(models, kept, items) && Positions(added, |items|)
    requires forall i :: 0 <= i < |items| ==> (i in added <==> !HasModel(pool, items[i].id))
    requires |joined| == |added| && forall k :: 0 <= k < |added| ==> joined[k] == kept[added[k]]
    ensures Positions(joined, |models|)
    ensures forall i :: 0 <= i < |models| ==>
              (i in joined <==> FirstWithId(models, i, Trim(models[i].id)) && !HasModel(pool, Trim(models[i].id)))
  {
    forall i | 0 <= i < |models|
      ensures i in joined <==> FirstWithId(models, i, Trim(models[i].id)) && !HasModel(pool, Trim(models[i].id))
    {
      if i in kept {
        var k :| 0 <= k < |kept| && kept[k] == i;
        if k in added {
          var l :| 0 <= l < |added| && added[l] == k;
          assert joined[l] == i;
        }
      }
      if i in joined {
        var l :| 0 <= l < |joined| && joined[l] == i;
        assert added[l] in added && kept[added[l]] in kept;
      }
    }
  }

  lemma FetchedIsMerged(pool: seq<Model>, models: seq<Model>, kept: seq<nat>, items: seq<Model>, p: nat, b: Model)
    requires p < |pool| && KeptAt(models, kept, items) && MergedAs(pool, items, p, b)
    ensures FetchedAs(pool, models, p, b)
  {
    var id := pool[p].id;
    BlankExactly(pool[p].caption);
    if HasModel(items, id) {
      var k := FirstModel(items, id);
      assert kept[k] in kept && FirstWithId(models, kept[k], id);
      assert models[kept[k]] in models;
    } else if m :| m in models && !AllWhitespace(m.id) && Trim(m.id) == id {
      BlankExactly(m.id);
      var j :| 0 <= j < |models| && models[j] == m;
      KeptHas(models, kept, items, id);
      assert false;
    }
  }

  lemma JoinedMeans(pool: seq<Model>, models: seq<Model>, joined: seq<nat>, r: seq<Model>)
    requires FetchedAt(pool, models, joined, r)
    ensures forall i :: 0 <= i < |models| ==>
              (i in joined <==>
                 && !AllWhitespace(models[i].id)
                 && (forall p :: 0 <= p < |pool| ==> pool[p].id != Trim(models[i].id))
                 && (forall j :: 0 <= j < i ==> Trim(models[j].id) != Trim(models[i].id)))
    ensures forall k :: 0 <= k < |joined| ==>
              var m := models[joined[k]];
              r[|pool| + k] ==
              Model(Trim(m.id), if AllWhitespace(m.caption) then Trim(m.id) else Trim(m.caption),
                    "remote", "native-agentkit")
  {}

  lemma KeptMeans(pool: seq<Model>, models: seq<Model>, joined: seq<nat>, r: seq<Model>)
    requires FetchedAt(pool, models, joined, r)
    ensures forall p :: 0 <= p < |pool| ==>
              var a, b := pool[p], r[p];
              if (exists q :: 0 <= q < p && pool[q].id == a.id) ||
                 (forall m <- models :: AllWhitespace(m.id) || Trim(m.id) != a.id) then b == a
              else
                exists i :: 0 <= i < |models| && FirstWithId(models, i, a.id) &&
                  b == Model(a.id, if !AllWhitespace(a.caption) then a.caption else LabelOf(models[i]),
                             "remote", "native-agentkit")
  {
    forall p | 0 <= p < |pool| ensures FetchedAs(pool, models, p, r[p]) {}
  }
}
