/** Activation of a pending data import and its rollback, over a disk whose
    operations may fail. */
module PendingImport {
  import opened Text
  import opened ImportLayout

  /** One successful rename and the file table it found. */
  datatype Move = Move(before: Files, from: Path, to: Path)

  /** The rename replaced no file. */
  predicate Clean(m: Move) { m.to !in m.before }

  ghost predicate AllClean(ms: seq<Move>) { forall m <- ms :: Clean(m) }

  /** No rename replaced a file, and everything was conserved before each. */
  ghost predicate AllGood(s: Site, before: Files, ms: seq<Move>) {
    forall m <- ms :: Clean(m) && Conserved(s, before, m.before)
  }

  lemma AllCleanSnoc(ms: seq<Move>, m: Move)
    ensures AllClean(ms + [m]) <==> AllClean(ms) && Clean(m)
  {
    assert forall x <- ms :: x in ms + [m];
    assert m in ms + [m];
  }

  lemma AllGoodSnoc(s: Site, before: Files, ms: seq<Move>, m: Move)
    ensures AllGood(s, before, ms + [m]) <==>
            AllGood(s, before, ms) && Clean(m) && Conserved(s, before, m.before)
  {
    assert forall x <- ms :: x in ms + [m];
    assert m in ms + [m];
  }

  /** `faults` counts the operations that failed although the file table allowed
      them; `moves` records every rename that took place. */
  class Disk {
    var files: Files
    var dirs: set<Path>
    var faults: nat
    ghost var moves: seq<Move>

    ghost predicate ParentsExist()
      reads this
    {
      forall p <- files, q: Path :: q < p ==> q in dirs
    }

    method Rename(from: Path, to: Path) returns (ok: bool)
      modifies this
      ensures dirs == old(dirs)
      ensures ok ==> from in old(files) && files == Moved(old(files), from, to)
      ensures ok ==> moves == old(moves) + [Move(old(files), from, to)] && faults == old(faults)
      ensures !ok ==> files == old(files) && moves == old(moves)
      ensures !ok ==> faults == if from in old(files) then old(faults) + 1 else old(faults)
    {
      if from !in files { return false; }
      ok := *;
      if ok {
        moves := moves + [Move(files, from, to)];
        files := (files - {from})[to := files[from]];
      } else {
        faults := faults + 1;
      }
    }

    method CreateDirAll(dir: Path) returns (ok: bool)
      modifies this
      ensures files == old(files) && moves == old(moves)
      ensures old(dirs) <= dirs <= old(dirs) + (set n | 0 <= n <= |dir| :: dir[..n])
      ensures ok ==> faults == old(faults) && forall n :: 0 <= n <= |dir| ==> dir[..n] in dirs
      ensures !ok ==> faults == old(faults) + 1
    {
      ok := *;
      var made := |dir| + 1;
      if !ok { made :| 0 <= made <= |dir|; }
      dirs := dirs + (set n | 0 <= n < made :: dir[..n]);
      if !ok { faults := faults + 1; }
    }

    method Read(p: Path) returns (content: Option<Content>)
      modifies this`faults
      ensures faults == old(faults) ==> content == At(files, p)
      ensures faults != old(faults) ==> content == None && faults == old(faults) + 1
    {
      var ok := *;
      if !ok { faults := faults + 1; return None; }
      content := if p in files then Some(files[p]) else None;
    }

    method RemoveFile(p: Path) returns (ok: bool)
      modifies this
      ensures dirs == old(dirs) && moves == old(moves)
      ensures ok ==> files == old(files) - {p} && faults == old(faults)
      ensures !ok ==> files == old(files) && (p in files ==> faults == old(faults) + 1)
    {
      ok := *;
      if ok { files := files - {p}; } else { faults := faults + 1; }
    }

    /** A failed removal may have removed any part of the directory. */
    method RemoveDirAll(dir: Path) returns (ok: bool)
      modifies this
      ensures moves == old(moves)
      ensures ok ==> files == Without(old(files), dir) && faults == old(faults)
      ensures !ok ==> faults == old(faults) + 1
      ensures !ok ==> forall p :: At(files, p) == At(old(files), p) || (Inside(dir, p) && p !in files)
    {
      var removed: set<Path> := *;
      ok := *;
      var gone := set p | p in files && Inside(dir, p) && (ok || p in removed);
      files := files - gone;
      dirs := set d | d in dirs && !(ok && (d == dir || Inside(dir, d)));
      if ok {
        assert files == Without(old(files), dir);
      } else {
        faults := faults + 1;
      }
    }

    /** The names in a directory, in the order the system happens to give. */
    method ReadDir(dir: Path) returns (ok: bool, names: seq<string>)
      modifies this`faults
      ensures ok ==> faults == old(faults) && NoDup(names)
      ensures ok ==> forall c: string :: c in names <==> dir + [c] in files
      ensures !ok ==> faults == old(faults) + 1
    {
      ok, names := *, [];
      if !ok { faults := faults + 1; return; }
      var left := set p | p in files && |p| == |dir| + 1 && p[..|dir|] == dir :: p[|dir|];
      forall c: string ensures c in left <==> dir + [c] in files {
        assert (dir + [c])[..|dir|] == dir;
        if c in left {
          var p :| p in files && |p| == |dir| + 1 && p[..|dir|] == dir && p[|dir|] == c;
          assert p == dir + [c];
        }
      }
      while left != {}
        invariant NoDup(names) && forall c <- names :: c !in left
        invariant forall c: string :: c in names || c in left <==> dir + [c] in files
        decreases left
      {
        var c :| c in left;
        left := left - {c};
        names := names + [c];
      }
    }
  }

  function Without(files: Files, dir: Path): Files {
    map p | p in files && !Inside(dir, p) :: files[p]
  }

  // ----- The swap -----

  predicate Distinct(kinds: seq<Kind>) { NoDup(kinds) }

  function MainNames(kinds: seq<Kind>): set<string> { set k | k in kinds :: FileName(k) }

  function FirstComponents(kind: Kind, n: nat): set<string>
    requires n <= 3
  {
    set i | 0 <= i < n :: Component(kind, i)
  }

  function AllComponents(kinds: seq<Kind>): set<string> {
    set k, i | k in kinds && 0 <= i < 3 :: Component(k, i)
  }

  function Present(s: Site, files: Files, names: set<string>): set<string> {
    set c | c in names && Live(s, c) in files
  }

  /** Every component of the listed databases aside, every listed database live. */
  function Planned(s: Site, before: Files, kinds: seq<Kind>): Progress {
    Progress(Present(s, before, AllComponents(kinds)), MainNames(kinds), {})
  }

  lemma ComponentsOfListed(kinds: seq<Kind>, k: Kind)
    ensures k in kinds <==> FileName(k) in MainNames(kinds)
    ensures k !in kinds ==> FirstComponents(k, 3) !! MainNames(kinds)
    ensures AllComponents(kinds + [k]) == AllComponents(kinds) + FirstComponents(k, 3)
    ensures MainNames(kinds + [k]) == MainNames(kinds) + {FileName(k)}
  {
    forall l ensures FileName(l) == Component(l, 0) {}
    forall l, i, j | 0 <= i < 3 && 0 <= j < 3 && l != k
      ensures Component(k, i) != Component(l, j)
    {
      if Component(k, i) == Component(l, j) { ComponentsInjective(k, i, l, j); }
    }
  }

  lemma PlannedNext(s: Site, before: Files, kinds: seq<Kind>, k: Kind)
    ensures Planned(s, before, kinds + [k]) ==
            Progress(Planned(s, before, kinds).aside + Present(s, before, FirstComponents(k, 3)),
                     Planned(s, before, kinds).live + {FileName(k)}, {})
  {
    ComponentsOfListed(kinds, k);
  }

  /** What a name that is not live still has in the two directories. */
  lemma NotLive(s: Site, before: Files, now: Files, g: Progress, c: string)
    requires ValidSite(s) && Shape(s, before, now, g) && c !in g.live && g.lost == {}
    ensures Live(s, c) in now <==> Live(s, c) in before && c !in g.aside
    ensures Staged(s, c) in now <==> Staged(s, c) in before
    ensures c in g.aside ==> Live(s, c) in before
  {
    Places(s, c);
    assert At(now, Live(s, c)) == if c in g.aside then None else At(before, Live(s, c));
    assert At(now, Staged(s, c)) == At(before, Staged(s, c));
  }

  /** The file table after one component, if it exists, is moved to the backup. */
  function ComponentAside(s: Site, files: Files, c: string): Files {
    if Live(s, c) in files then Moved(files, Live(s, c), Backup(s, c)) else files
  }

  /** The file table after the first `n` components are. */
  function ComponentsAside(s: Site, files: Files, kind: Kind, n: nat): Files
    requires n <= 3
  {
    if n == 0 then files else ComponentAside(s, ComponentsAside(s, files, kind, n - 1), Component(kind, n - 1))
  }

  lemma AsideKeeps(s: Site, files: Files, c: string, d: string)
    requires ValidSite(s)
    ensures var after := ComponentAside(s, files, c);
            && At(after, Staged(s, d)) == At(files, Staged(s, d)) && Live(s, c) !in after
            && (Live(s, d) !in files ==> Live(s, d) !in after)
  {
    Places(s, c);
    Places(s, d);
  }

  /** Moving a database aside leaves staging alone and its place free. */
  lemma AllAsideKeeps(s: Site, files: Files, kind: Kind, d: string)
    requires ValidSite(s)
    ensures var after := ComponentsAside(s, files, kind, 3);
            At(after, Staged(s, d)) == At(files, Staged(s, d)) && Live(s, FileName(kind)) !in after
  {
    var name, c1, c2 := FileName(kind), Component(kind, 1), Component(kind, 2);
    assert Component(kind, 0) == name;
    var a := ComponentAside(s, files, name);
    var b := ComponentAside(s, a, c1);
    assert ComponentsAside(s, files, kind, 0) == files;
    assert ComponentsAside(s, files, kind, 1) == a;
    assert ComponentsAside(s, files, kind, 2) == b;
    AsideKeeps(s, files, name, d);
    AsideKeeps(s, a, c1, d);
    AsideKeeps(s, b, c2, d);
    AsideKeeps(s, a, c1, name);
    AsideKeeps(s, b, c2, name);
  }

  lemma PresentSnoc(s: Site, files: Files, kind: Kind, i: nat)
    requires i < 3
    ensures Present(s, files, FirstComponents(kind, i + 1)) ==
            Present(s, files, FirstComponents(kind, i)) + Present(s, files, {Component(kind, i)})
    ensures Component(kind, i) in FirstComponents(kind, 3)
  {
    assert FirstComponents(kind, i + 1) == FirstComponents(kind, i) + {Component(kind, i)};
  }

  /** The names moved so far, provided the import was in shape before. */
  ghost predicate InShape(disk: Disk, s: Site, before: Files, g: Progress, start: nat)
    reads disk
    requires start <= |disk.moves|
  {
    Shape(s, before, disk.files, g) && g.lost == {} && AllGood(s, before, disk.moves[start..])
  }

  /** Moves one component into the backup if it exists. */
  method MoveComponent(disk: Disk, s: Site, c: string,
                       ghost before: Files, ghost g: Progress, ghost start: nat)
    returns (ok: bool, ghost h: Progress)
    requires ValidSite(s) && start <= |disk.moves|
    modifies disk
    ensures disk.dirs == old(disk.dirs) && old(disk.moves) <= disk.moves
    ensures disk.files == if ok then ComponentAside(s, old(disk.files), c) else old(disk.files)
    ensures if ok then disk.faults == old(disk.faults) else disk.faults > old(disk.faults)
    ensures old(InShape(disk, s, before, g, start)) && c !in g.live ==>
              InShape(disk, s, before, h, start) && h.live == g.live &&
              (ok ==> h.aside == g.aside + Present(s, before, {c}))
  {
    h := g;
    ghost var shaped := InShape(disk, s, before, g, start) && c !in g.live;
    if shaped { NotLive(s, before, disk.files, g, c); }
    if Live(s, c) !in disk.files { return true, h; }
    ghost var was, earlier := disk.files, disk.moves;
    ok := disk.Rename(Live(s, c), Backup(s, c));
    if !ok { return; }
    if shaped {
      ghost var move := Move(was, Live(s, c), Backup(s, c));
      assert disk.moves[start..] == earlier[start..] + [move];
      SetAside(s, before, was, g, c);
      ShapeConserved(s, before, was, g);
      AllGoodSnoc(s, before, earlier[start..], move);
      h := g.(aside := g.aside + {c});
    }
  }

  /** Moves the existing components of one database into the backup. */
  method MoveAside(disk: Disk, s: Site, kind: Kind,
                   ghost before: Files, ghost g: Progress, ghost start: nat)
    returns (ok: bool, ghost h: Progress)
    requires ValidSite(s) && start <= |disk.moves|
    modifies disk
    ensures disk.dirs == old(disk.dirs) && old(disk.moves) <= disk.moves
    ensures ok ==> disk.files == ComponentsAside(s, old(disk.files), kind, 3) && disk.faults == old(disk.faults)
    ensures !ok ==> disk.faults > old(disk.faults)
    ensures old(InShape(disk, s, before, g, start)) && FirstComponents(kind, 3) !! g.live ==>
              InShape(disk, s, before, h, start) && h.live == g.live &&
              (ok ==> h.aside == g.aside + Present(s, before, FirstComponents(kind, 3)))
  {
    h := g;
    ghost var was, shaped := disk.files, InShape(disk, s, before, g, start) && FirstComponents(kind, 3) !! g.live;
    for i := 0 to 3
      invariant disk.dirs == old(disk.dirs) && disk.faults == old(disk.faults)
      invariant old(disk.moves) <= disk.moves
      invariant disk.files == ComponentsAside(s, was, kind, i)
      invariant shaped ==> InShape(disk, s, before, h, start) && h.live == g.live
      invariant shaped ==> h.aside == g.aside + Present(s, before, FirstComponents(kind, i))
    {
      PresentSnoc(s, before, kind, i);
      ok, h := MoveComponent(disk, s, Component(kind, i), before, h, start);
      if !ok { return; }
    }
    ok := true;
  }

  // ----- The swap of all listed databases -----

  lemma StillStaged(s: Site, before: Files, now: Files, g: Progress, c: string)
    requires ValidSite(s) && Shape(s, before, now, g) && g.lost == {} && Staged(s, c) in before
    ensures Staged(s, c) in now <==> c !in g.live
  {
    Places(s, c);
    assert At(now, Staged(s, c)) == if c in g.live then None else At(before, Staged(s, c));
  }

  /** Swaps in one more database after those in `done`. */
  method StageOne(disk: Disk, s: Site, kind: Kind,
                  ghost done: seq<Kind>, ghost before: Files, ghost start: nat)
    returns (ok: bool, ghost h: Progress)
    requires ValidSite(s) && start <= |disk.moves| && Staged(s, FileName(kind)) in before
    requires InShape(disk, s, before, Planned(s, before, done), start)
    modifies disk
    ensures disk.dirs == old(disk.dirs) && old(disk.moves) <= disk.moves
    ensures disk.faults >= old(disk.faults)
    ensures ok ==> kind !in done && disk.faults == old(disk.faults)
    ensures ok ==> h == Planned(s, before, done + [kind]) && InShape(disk, s, before, h, start)
    ensures !ok && kind !in done ==> InShape(disk, s, before, h, start) && h.live == MainNames(done)
    ensures !ok && kind !in done ==> disk.faults > old(disk.faults)
    ensures !ok && kind in done && disk.faults == old(disk.faults) ==>
              Shape(s, StagedOver(s, before, kind), disk.files, Redone(s, before, done, kind))
  {
    var name := FileName(kind);
    ghost var g := Planned(s, before, done);
    ComponentsOfListed(done, kind);
    StillStaged(s, before, disk.files, g, name);
    ok, h := MoveAside(disk, s, kind, before, g, start);
    if !ok { return; }
    ghost var was, earlier := disk.files, disk.moves;
    AllAsideKeeps(s, old(disk.files), kind, name);
    if kind in done { RedoneShape(s, before, old(disk.files), done, kind); }
    ok := disk.Rename(Staged(s, name), Live(s, name));
    if ok {
      PlannedNext(s, before, done, kind);
      GoLive(s, before, was, h, name);
      ShapeConserved(s, before, was, h);
      ghost var move := Move(was, Staged(s, name), Live(s, name));
      assert disk.moves[start..] == earlier[start..] + [move];
      AllGoodSnoc(s, before, earlier[start..], move);
      h := h.(live := h.live + {name});
    }
  }

  /** Stages the listed databases; `activated` lists the pairs moved, in order. */
  method Swap(disk: Disk, s: Site, kinds: seq<Kind>)
    returns (ok: bool, activated: seq<(Path, Path)>, ghost g: Progress)
    requires ValidSite(s) && FreshBackup(s, disk.files)
    requires forall k <- kinds :: Staged(s, FileName(k)) in disk.files
    modifies disk
    ensures disk.dirs == old(disk.dirs) && old(disk.moves) <= disk.moves
    ensures disk.faults >= old(disk.faults)
    ensures |activated| <= |kinds| && Distinct(kinds[..|activated|])
    ensures forall i :: 0 <= i < |activated| ==> activated[i] == PairOf(s, kinds[i])
    ensures ok ==> Distinct(kinds) && |activated| == |kinds| && disk.faults == old(disk.faults)
    ensures ok ==> g == Planned(s, old(disk.files), kinds)
    ensures ok ==> InShape(disk, s, old(disk.files), g, |old(disk.moves)|)
    ensures !ok ==> |activated| < |kinds|
    ensures !ok && kinds[|activated|] !in kinds[..|activated|] ==>
              InShape(disk, s, old(disk.files), g, |old(disk.moves)|) &&
              g.live == MainNames(kinds[..|activated|]) && disk.faults > old(disk.faults)
    ensures !ok && kinds[|activated|] in kinds[..|activated|] && disk.faults == old(disk.faults) ==>
              var done, k := kinds[..|activated|], kinds[|activated|];
              Shape(s, StagedOver(s, old(disk.files), k), disk.files, Redone(s, old(disk.files), done, k))
  {
    ghost var before, start := disk.files, |disk.moves|;
    activated, g := [], START;
    ShapeAtStart(s, before);
    assert Planned(s, before, []) == START && kinds[..0] == [];
    for i := 0 to |kinds|
      invariant disk.dirs == old(disk.dirs) && old(disk.moves) <= disk.moves
      invariant disk.faults == old(disk.faults)
      invariant |activated| == i && Distinct(kinds[..i])
      invariant forall j :: 0 <= j < i ==> activated[j] == PairOf(s, kinds[j])
      invariant g == Planned(s, before, kinds[..i])
      invariant InShape(disk, s, before, g, start)
    {
      ghost var done := kinds[..i];
      OneMoreKind(kinds, i);
      ok, g := StageOne(disk, s, kinds[i], done, before, start);
      if !ok {
        assert |activated| == i;
        return;
      }
      activated := activated + [PairOf(s, kinds[i])];
    }
    assert kinds[..|kinds|] == kinds;
    ok := true;
  }

  lemma OneMoreKind(kinds: seq<Kind>, i: nat)
    requires i < |kinds|
    ensures kinds[..i + 1] == kinds[..i] + [kinds[i]]
    ensures Distinct(kinds[..i + 1]) <==> Distinct(kinds[..i]) && kinds[i] !in kinds[..i]
  {
    NoDupSnoc(kinds[..i], kinds[i]);
    assert kinds[..i + 1] == kinds[..i] + [kinds[i]];
  }

  function PairOf(s: Site, kind: Kind): (Path, Path) {
    (Staged(s, FileName(kind)), Live(s, FileName(kind)))
  }

  // ----- A database listed twice -----

  /** The file table with the staged database renamed over the old one. */
  function StagedOver(s: Site, files: Files, k: Kind): Files
    requires Staged(s, FileName(k)) in files
  {
    Moved(files, Staged(s, FileName(k)), Live(s, FileName(k)))
  }

  /** How far the swap has come, counted from there, when it meets `k` again. */
  function Redone(s: Site, before: Files, done: seq<Kind>, k: Kind): Progress {
    var g := Planned(s, before, done);
    Progress(g.aside + {FileName(k)}, g.live - {FileName(k)}, {})
  }

  /** Moving a database aside a second time renames its new content over the backup of
      the old one. From then on it is as if the new content had always been there. */
  lemma RedoneShape(s: Site, before: Files, now: Files, done: seq<Kind>, k: Kind)
    requires ValidSite(s) && k in done && Staged(s, FileName(k)) in before
    requires Shape(s, before, now, Planned(s, before, done))
    ensures Shape(s, StagedOver(s, before, k), ComponentsAside(s, now, k, 3), Redone(s, before, done, k))
  {
    var name, g, g' := FileName(k), Planned(s, before, done), Redone(s, before, done, k);
    var after := StagedOver(s, before, k);
    OnlyMainLeft(s, before, now, done, k);
    Places(s, name);
    assert At(now, Live(s, name)) == At(before, Staged(s, name));
    MovedAt(now, Live(s, name), Backup(s, name));
    MovedAt(before, Staged(s, name), Live(s, name));
    forall p: Path ensures At(Moved(now, Live(s, name), Backup(s, name)), p) == Expected(s, after, g', p) {
      PlaceOf(s, p);
      assert At(now, p) == Expected(s, before, g, p);
    }
    RedoneIsValid(s, before, g, k);
  }

  lemma RedoneIsValid(s: Site, before: Files, g: Progress, k: Kind)
    requires ValidSite(s) && ValidProgress(s, before, g) && Staged(s, FileName(k)) in before && g.lost == {}
    ensures ValidProgress(s, StagedOver(s, before, k), Progress(g.aside + {FileName(k)}, g.live - {FileName(k)}, {}))
  {
    var name := FileName(k);
    Places(s, name);
    MovedAt(before, Staged(s, name), Live(s, name));
    forall c: string
      ensures c != name ==> At(StagedOver(s, before, k), Live(s, c)) == At(before, Live(s, c))
      ensures c != name ==> At(StagedOver(s, before, k), Staged(s, c)) == At(before, Staged(s, c))
    {
      Places(s, c);
    }
  }

  /** The sidecars of a database already swapped are in the backup or never were. */
  lemma OnlyMainLeft(s: Site, before: Files, now: Files, done: seq<Kind>, k: Kind)
    requires ValidSite(s) && k in done && Shape(s, before, now, Planned(s, before, done))
    ensures FileName(k) in Planned(s, before, done).live && Live(s, FileName(k)) in now
    ensures ComponentsAside(s, now, k, 3) == Moved(now, Live(s, FileName(k)), Backup(s, FileName(k)))
  {
    var g, name := Planned(s, before, done), FileName(k);
    assert Component(k, 0) == name;
    Places(s, name);
    assert At(now, Live(s, name)) == At(before, Staged(s, name));
    forall i | 0 < i < 3 ensures Live(s, Component(k, i)) !in now {
      SidecarGone(s, before, now, done, k, i);
    }
    var a := Moved(now, Live(s, name), Backup(s, name));
    assert ComponentsAside(s, now, k, 0) == now;
    assert ComponentsAside(s, now, k, 1) == a;
    AsideKeeps(s, now, name, Component(k, 1));
    AsideKeeps(s, now, name, Component(k, 2));
    assert ComponentsAside(s, now, k, 2) == a;
  }

  lemma SidecarGone(s: Site, before: Files, now: Files, done: seq<Kind>, k: Kind, i: nat)
    requires ValidSite(s) && k in done && 0 < i < 3 && Shape(s, before, now, Planned(s, before, done))
    ensures Live(s, Component(k, i)) !in now
  {
    var c := Component(k, i);
    assert c in AllComponents(done);
    Places(s, c);
    forall l ensures FileName(l) != c {
      assert Component(l, 0) == FileName(l);
      if FileName(l) == c { ComponentsInjective(l, 0, k, i); }
    }
    assert c !in MainNames(done);
    assert At(now, Live(s, c)) == None;
  }

  lemma OverIsFresh(s: Site, files: Files, k: Kind)
    requires ValidSite(s) && FreshBackup(s, files) && Staged(s, FileName(k)) in files
    ensures FreshBackup(s, StagedOver(s, files, k))
  {
    Places(s, FileName(k));
  }

  // ----- Rollback -----

  /** Where a rollback from progress `g` stands: `stuck` are the databases that
      could not be moved back to staging. A stuck database is lost exactly when
      its old component is put back over it, and exactly then a rename replaced
      a file. */
  ghost predicate RollbackShape(disk: Disk, s: Site, before: Files, g: Progress, h: Progress,
                                stuck: set<string>, start: nat)
    reads disk
    requires start <= |disk.moves|
  {
    && Shape(s, before, disk.files, h)
    && stuck <= g.live && h.aside <= g.aside
    && h.lost == stuck * (g.aside - h.aside)
    && h.live == stuck - h.lost
    && (h.lost == {} <==> AllClean(disk.moves[start..]))
    && (h.lost == {} ==> AllGood(s, before, disk.moves[start..]))
  }

  lemma AllGoodIsClean(s: Site, before: Files, ms: seq<Move>)
    requires AllGood(s, before, ms)
    ensures AllClean(ms)
  {}

  lemma FileNamesInjective(k: Kind, l: Kind)
    ensures FileName(k) == FileName(l) ==> k == l
  {
    if FileName(k) == FileName(l) {
      assert Component(k, 0) == FileName(k) && Component(l, 0) == FileName(l);
      ComponentsInjective(k, 0, l, 0);
    }
  }

  /** Moves one activated database back to staging, if it is there. */
  method WithdrawOne(disk: Disk, s: Site, staged: Path, target: Path,
                     ghost c: string, ghost before: Files, ghost g: Progress, ghost start: nat)
    returns (failed: bool)
    requires ValidSite(s) && start <= |disk.moves|
    requires staged == Staged(s, c) && target == Live(s, c)
    modifies disk
    ensures old(disk.dirs) <= disk.dirs && old(disk.moves) <= disk.moves
    ensures failed ==> disk.faults > old(disk.faults)
    ensures disk.faults >= old(disk.faults)
    ensures old(InShape(disk, s, before, g, start)) && c in g.live + g.aside ==>
              InShape(disk, s, before, if failed then g else g.(live := g.live - {c}), start)
  {
    failed := false;
    ghost var shaped := InShape(disk, s, before, g, start) && c in g.live + g.aside;
    if shaped && c in g.live { Withdraw(s, before, disk.files, g, c); }
    if shaped && c !in g.live {
      NotLive(s, before, disk.files, g, c);
      assert g.(live := g.live - {c}) == g;
    }
    if target in disk.files {
      var made := disk.CreateDirAll(staged[..|staged| - 1]);
      ghost var was, earlier := disk.files, disk.moves;
      var ok := disk.Rename(target, staged);
      failed := !ok;
      if ok && shaped {
        ghost var move := Move(was, target, staged);
        assert disk.moves[start..] == earlier[start..] + [move];
        ShapeConserved(s, before, was, g);
        AllGoodSnoc(s, before, earlier[start..], move);
      }
    }
  }

  /** Puts one backed-up component back. */
  method PutBackOne(disk: Disk, s: Site, c: string, ghost before: Files, ghost g: Progress,
                    ghost h: Progress, ghost stuck: set<string>, ghost start: nat)
    returns (ok: bool)
    requires ValidSite(s) && start <= |disk.moves|
    modifies disk
    ensures disk.dirs == old(disk.dirs) && old(disk.moves) <= disk.moves
    ensures ok ==> disk.faults == old(disk.faults)
    ensures !ok && Backup(s, c) in old(disk.files) ==> disk.faults > old(disk.faults)
    ensures disk.faults >= old(disk.faults)
    ensures forall d: string :: d != c && Backup(s, d) in old(disk.files) ==> Backup(s, d) in disk.files
    ensures old(RollbackShape(disk, s, before, g, h, stuck, start)) && c in h.aside ==>
              RollbackShape(disk, s, before, g, if ok then AfterPutBack(h, c) else h, stuck, start)
  {
    ghost var shaped := RollbackShape(disk, s, before, g, h, stuck, start) && c in h.aside;
    ghost var was, earlier := disk.files, disk.moves;
    ok := disk.Rename(Backup(s, c), Live(s, c));
    if ok {
      Places(s, c);
      forall d: string
        ensures Backup(s, d) == Backup(s, c) ==> d == c
        ensures Backup(s, d) != Live(s, c)
      {
        Places(s, d);
      }
      if shaped {
        ghost var move := Move(was, Backup(s, c), Live(s, c));
        assert disk.moves[start..] == earlier[start..] + [move];
        PutBack(s, before, was, h, c);
        AllCleanSnoc(earlier[start..], move);
        if h.lost == {} {
          ShapeConserved(s, before, was, h);
          AllGoodSnoc(s, before, earlier[start..], move);
        }
      }
    }
  }

  /** Only listed databases are live, and a listed one that is not has gone aside. */
  predicate Withdrawable(g: Progress, kinds: seq<Kind>) {
    g.live <= MainNames(kinds) <= g.live + g.aside
  }

  /** Moves the activated databases back to staging, the last one first. */
  method WithdrawAll(disk: Disk, s: Site, activated: seq<(Path, Path)>, ghost kinds: seq<Kind>,
                     ghost before: Files, ghost g: Progress, ghost start: nat)
    returns (failures: nat, ghost h: Progress)
    requires ValidSite(s) && start <= |disk.moves|
    requires |kinds| == |activated| && Distinct(kinds)
    requires forall i :: 0 <= i < |kinds| ==> activated[i] == PairOf(s, kinds[i])
    modifies disk
    ensures old(disk.dirs) <= disk.dirs && old(disk.moves) <= disk.moves
    ensures disk.faults >= old(disk.faults) && (disk.faults == old(disk.faults) ==> failures == 0)
    ensures old(InShape(disk, s, before, g, start)) && Withdrawable(g, kinds) ==>
              InShape(disk, s, before, h, start) && h.aside == g.aside && h.live <= g.live &&
              (failures == 0 ==> h.live == {})
  {
    ghost var shaped := InShape(disk, s, before, g, start) && Withdrawable(g, kinds);
    failures := 0;
    h := g;
    for i := |activated| downto 0
      invariant old(disk.dirs) <= disk.dirs && old(disk.moves) <= disk.moves
      invariant disk.faults >= old(disk.faults)
      invariant disk.faults == old(disk.faults) ==> failures == 0
      invariant shaped ==> InShape(disk, s, before, h, start) && h.aside == g.aside && h.live <= g.live
      invariant shaped ==> MainNames(kinds[..i]) <= h.live + h.aside
      invariant shaped && failures == 0 ==> h.live <= MainNames(kinds[..i])
    {
      var (staged, target) := activated[i];
      ghost var c := FileName(kinds[i]);
      assert kinds[..i + 1] == kinds[..i] + [kinds[i]];
      forall l { FileNamesInjective(kinds[i], l); }
      ComponentsOfListed(kinds[..i], kinds[i]);
      var failed := WithdrawOne(disk, s, staged, target, c, before, h, start);
      if failed {
        failures := failures + 1;
      } else {
        h := h.(live := h.live - {c});
      }
    }
  }

  function Names(entries: seq<string>): set<string> { set c | c in entries }

  lemma NamesUpTo(entries: seq<string>, i: nat)
    requires i < |entries|
    ensures Names(entries[..i + 1]) == Names(entries[..i]) + {entries[i]}
  {
    assert entries[..i + 1] == entries[..i] + [entries[i]];
  }

  /** Puts the listed components back, stopping early when the listing itself fails. */
  method PutBackAll(disk: Disk, s: Site, entries: seq<string>, ghost before: Files, ghost g: Progress,
                    ghost h0: Progress, ghost stuck: set<string>, ghost start: nat)
    returns (listed: bool, failures: nat, ghost h: Progress)
    requires ValidSite(s) && start <= |disk.moves| && NoDup(entries)
    requires forall j :: 0 <= j < |entries| ==> Backup(s, entries[j]) in disk.files
    modifies disk
    ensures old(disk.dirs) <= disk.dirs && old(disk.moves) <= disk.moves
    ensures disk.faults >= old(disk.faults)
    ensures disk.faults == old(disk.faults) ==> listed && failures == 0
    ensures old(RollbackShape(disk, s, before, g, h0, stuck, start)) && (forall c <- entries :: c in h0.aside) ==>
              RollbackShape(disk, s, before, g, h, stuck, start) &&
              (listed && failures == 0 ==> h.aside == h0.aside - Names(entries))
  {
    ghost var shaped := RollbackShape(disk, s, before, g, h0, stuck, start) && forall c <- entries :: c in h0.aside;
    listed, failures, h := true, 0, h0;
    for i := 0 to |entries|
      invariant old(disk.dirs) <= disk.dirs && old(disk.moves) <= disk.moves
      invariant disk.faults >= old(disk.faults)
      invariant disk.faults == old(disk.faults) ==> failures == 0
      invariant forall j :: i <= j < |entries| ==> Backup(s, entries[j]) in disk.files
      invariant shaped ==> RollbackShape(disk, s, before, g, h, stuck, start)
      invariant shaped ==> forall j :: i <= j < |entries| ==> entries[j] in h.aside
      invariant shaped && failures == 0 ==> h.aside == h0.aside - Names(entries[..i])
    {
      listed := *;
      if !listed {
        disk.faults := disk.faults + 1;
        return;
      }
      NamesUpTo(entries, i);
      var ok := PutBackOne(disk, s, entries[i], before, g, h, stuck, start);
      if ok {
        h := if shaped then AfterPutBack(h, entries[i]) else h;
      } else {
        failures := failures + 1;
      }
    }
    assert entries[..|entries|] == entries;
    listed := true;
  }

  /** Undoes an interrupted swap: activated databases go back to staging, then
      everything in the backup goes back to the database directory. The backup
      directory itself stays. */
  method Rollback(disk: Disk, s: Site, activated: seq<(Path, Path)>, ghost kinds: seq<Kind>,
                  ghost before: Files, ghost g: Progress, ghost start: nat)
    returns (ok: bool, ghost h: Progress, ghost stuck: set<string>)
    requires ValidSite(s) && start <= |disk.moves|
    requires |kinds| == |activated| && Distinct(kinds)
    requires forall i :: 0 <= i < |kinds| ==> activated[i] == PairOf(s, kinds[i])
    requires BackupDb(s) in disk.dirs
    modifies disk
    ensures old(disk.dirs) <= disk.dirs && old(disk.moves) <= disk.moves
    ensures disk.faults >= old(disk.faults)
    ensures disk.faults == old(disk.faults) ==> ok
    ensures old(InShape(disk, s, before, g, start)) && Withdrawable(g, kinds) ==>
              RollbackShape(disk, s, before, g, h, stuck, start) && (ok ==> h == START)
  {
    ghost var shaped := InShape(disk, s, before, g, start) && Withdrawable(g, kinds);
    var failures;
    failures, h := WithdrawAll(disk, s, activated, kinds, before, g, start);
    stuck := h.live;
    if shaped { AllGoodIsClean(s, before, disk.moves[start..]); }
    if BackupDb(s) in disk.dirs {
      var entries, more;
      ok, entries := disk.ReadDir(BackupDb(s));
      if !ok { return; }
      if shaped { EntriesAreAside(s, before, disk.files, h, entries); }
      ok, more, h := PutBackAll(disk, s, entries, before, g, h, stuck, start);
      if !ok { return; }
      failures := failures + more;
    }
    ok := failures == 0;
  }

  lemma EntriesAreAside(s: Site, before: Files, now: Files, g: Progress, entries: seq<string>)
    requires ValidSite(s) && Shape(s, before, now, g)
    requires forall c: string :: c in entries <==> BackupDb(s) + [c] in now
    ensures forall c: string :: c in entries <==> c in g.aside
  {
    forall c: string ensures c in entries <==> c in g.aside {
      Places(s, c);
      assert BackupDb(s) + [c] == Backup(s, c);
      assert At(now, Backup(s, c)) == if c in g.aside then At(before, Live(s, c)) else None;
    }
  }

  // ----- Manifests -----

  const MANIFEST_VERSION := 1

  datatype PendingDatabase = PendingDatabase(kind: Kind, length: nat, sha256: string)

  datatype Manifest = Manifest(version: nat, planId: string, stagingHome: Path,
                               databases: seq<PendingDatabase>)

  /** What libraries decide about file contents: the manifest's encoding, the
      digest, whether SQLite finds a database intact, and whether it holds user
      rows (None when it cannot be inspected). */
  datatype Tools = Tools(encode: Manifest -> Content, decode: Content -> Option<Manifest>,
                         sha256: Content -> string, intact: Content -> bool,
                         userData: Content -> Option<bool>)

  predicate ValidPlanId(id: string) {
    && 0 < |id| <= 128
    && forall i :: 0 <= i < |id| ==>
         'a' <= id[i] <= 'z' || 'A' <= id[i] <= 'Z' || '0' <= id[i] <= '9' || id[i] == '-' || id[i] == '_'
  }

  /** Staging must exist and lie strictly inside the import staging directory. */
  predicate ValidStagingHome(dirs: set<Path>, home: Path, staging: Path) {
    home + [STAGING] in dirs && staging in dirs && Inside(home + [STAGING], staging)
  }

  function KindsOf(databases: seq<PendingDatabase>): seq<Kind> {
    seq(|databases|, i requires 0 <= i < |databases| => databases[i].kind)
  }

  function SiteOf(home: Path, m: Manifest): Site { Site(home, m.stagingHome, m.planId) }

  const KINDS := [ProductProjections, Product, AgentRuntime, LegacyDesktop]

  /** None of the four databases holds user rows. */
  predicate TargetEmpty(tools: Tools, files: Files, s: Site) {
    forall k :: Live(s, FileName(k)) in files ==> tools.userData(files[Live(s, FileName(k))]) == Some(false)
  }

  predicate StagedIntact(tools: Tools, files: Files, s: Site, d: PendingDatabase) {
    var p := Staged(s, FileName(d.kind));
    p in files && |files[p]| == d.length && tools.sha256(files[p]) == d.sha256 && tools.intact(files[p])
  }

  /** The checks an activation makes before it moves anything. */
  predicate Admissible(tools: Tools, files: Files, dirs: set<Path>, home: Path, m: Manifest) {
    var s := SiteOf(home, m);
    && m.version == MANIFEST_VERSION
    && ValidPlanId(m.planId)
    && ValidStagingHome(dirs, home, m.stagingHome)
    && TargetEmpty(tools, files, s)
    && (forall i :: 0 <= i < |m.databases| ==> StagedIntact(tools, files, s, m.databases[i]))
    && BackupHome(s) !in dirs && BackupHome(s) !in files
  }

  /** The manifest a disk holds, if it holds one that decodes. */
  function PendingManifest(tools: Tools, files: Files, home: Path): Option<Manifest> {
    if ManifestPath(home) in files then tools.decode(files[ManifestPath(home)]) else None
  }

  /** The checks over the disk alone. */
  lemma AdmissibleExactly(tools: Tools, files: Files, dirs: set<Path>, home: Path, m: Manifest)
    ensures Admissible(tools, files, dirs, home, m) <==>
            && m.version == 1 && 0 < |m.planId| <= 128
            && (forall c <- m.planId ::
                  'a' <= c <= 'z' || 'A' <= c <= 'Z' || '0' <= c <= '9' || c == '-' || c == '_')
            && home + ["import-staging"] in dirs && m.stagingHome in dirs
            && home + ["import-staging"] < m.stagingHome
            && home + ["import-backups", m.planId] !in dirs && home + ["import-backups", m.planId] !in files
            && (forall name <- ["product_projections.db", "product.db", "agent_runtime.db", "lilia.db"] ::
                  home + ["db", name] in files ==> tools.userData(files[home + ["db", name]]) == Some(false))
            && (forall d <- m.databases ::
                  var p := m.stagingHome + ["db", FileName(d.kind)];
                  p in files && |files[p]| == d.length && tools.sha256(files[p]) == d.sha256 && tools.intact(files[p]))
  {
    var s, names := SiteOf(home, m), ["product_projections.db", "product.db", "agent_runtime.db", "lilia.db"];
    assert names[0] == FileName(ProductProjections) && names[1] == FileName(Product);
    assert names[2] == FileName(AgentRuntime) && names[3] == FileName(LegacyDesktop);
    assert forall k :: Live(s, FileName(k)) == home + ["db", FileName(k)] && FileName(k) in names;
    assert forall d <- m.databases :: Staged(s, FileName(d.kind)) == m.stagingHome + ["db", FileName(d.kind)];
    assert BackupHome(s) == home + ["import-backups", m.planId];
    assert forall i :: 0 <= i < |m.planId| ==> m.planId[i] in m.planId;
    assert forall i :: 0 <= i < |m.databases| ==> m.databases[i] in m.databases;
  }

  // ----- Activation -----

  datatype Outcome =
    | Activated
    | Refused         // a check failed: nothing was moved
    | RolledBack      // a move failed and the rollback reports success
    | RollbackFailed  // a move failed and so did part of the rollback
    | ManifestLeft    // swapped, but the manifest could not be removed
    | StagingLeft     // swapped, but staging could not be removed

  method TargetIsEmpty(disk: Disk, tools: Tools, s: Site) returns (empty: bool)
    modifies disk`faults
    ensures empty ==> TargetEmpty(tools, disk.files, s) && disk.faults == old(disk.faults)
    ensures disk.faults >= old(disk.faults)
    ensures disk.faults == old(disk.faults) ==> empty == TargetEmpty(tools, disk.files, s)
  {
    for i := 0 to 4
      invariant disk.faults == old(disk.faults)
      invariant forall j :: 0 <= j < i ==>
                  var p := Live(s, FileName(KINDS[j]));
                  p in disk.files ==> tools.userData(disk.files[p]) == Some(false)
    {
      var p := Live(s, FileName(KINDS[i]));
      if p in disk.files {
        var content := disk.Read(p);
        if content.None? || tools.userData(content.value) != Some(false) { return false; }
      }
    }
    assert KINDS[0].ProductProjections? && KINDS[1].Product? && KINDS[2].AgentRuntime? && KINDS[3].LegacyDesktop?;
    empty := true;
  }

  method StagedUnchanged(disk: Disk, tools: Tools, s: Site, databases: seq<PendingDatabase>)
    returns (ok: bool)
    modifies disk`faults
    ensures ok ==> forall i :: 0 <= i < |databases| ==> StagedIntact(tools, disk.files, s, databases[i])
    ensures ok ==> disk.faults == old(disk.faults)
    ensures disk.faults >= old(disk.faults)
    ensures disk.faults == old(disk.faults) && !ok ==>
              exists i :: 0 <= i < |databases| && !StagedIntact(tools, disk.files, s, databases[i])
  {
    for i := 0 to |databases|
      invariant disk.faults == old(disk.faults)
      invariant forall j :: 0 <= j < i ==> StagedIntact(tools, disk.files, s, databases[j])
    {
      var d := databases[i];
      var content := disk.Read(Staged(s, FileName(d.kind)));
      if content.None? { return false; }
      if |content.value| != d.length || tools.sha256(content.value) != d.sha256 { return false; }
      if !tools.intact(content.value) { return false; }
    }
    ok := true;
  }

  lemma NoBackupYet(s: Site, files: Files, dirs: set<Path>)
    requires forall p <- files, q: Path :: q < p ==> q in dirs
    requires BackupHome(s) !in dirs
    ensures FreshBackup(s, files)
  {
    forall p | p in files && Where(s, p).AtBackup? ensures BackupHome(s) < p {
      InsideBackup(s, p);
    }
  }

  lemma InsideBackup(s: Site, p: Path)
    requires Where(s, p).AtBackup?
    ensures BackupHome(s) < p
  {
    var c := Where(s, p).name;
    PlaceOf(s, p);
    assert Backup(s, c) == BackupHome(s) + [DB, c];
  }

  /** Makes every check and creates the backup directory. */
  method Prepare(disk: Disk, tools: Tools, home: Path) returns (m: Option<Manifest>)
    requires disk.ParentsExist()
    modifies disk
    ensures disk.files == old(disk.files) && disk.moves == old(disk.moves)
    ensures disk.faults >= old(disk.faults)
    ensures m.Some? ==>
              && m == PendingManifest(tools, disk.files, home) && disk.faults == old(disk.faults)
              && Admissible(tools, disk.files, old(disk.dirs), home, m.value)
              && FreshBackup(SiteOf(home, m.value), disk.files)
              && BackupDb(SiteOf(home, m.value)) in disk.dirs && BackupHome(SiteOf(home, m.value)) in disk.dirs
              && m.value.stagingHome in disk.dirs
    ensures disk.faults == old(disk.faults) && m.None? ==>
              var pending := PendingManifest(tools, disk.files, home);
              pending.None? || !Admissible(tools, disk.files, old(disk.dirs), home, pending.value)
  {
    var encoded := disk.Read(ManifestPath(home));
    if encoded.None? { return None; }
    var decoded := tools.decode(encoded.value);
    if decoded.None? { return None; }
    var pending := decoded.value;
    if pending.version != MANIFEST_VERSION || !ValidPlanId(pending.planId) { return None; }
    if !ValidStagingHome(disk.dirs, home, pending.stagingHome) { return None; }
    var s := SiteOf(home, pending);
    var empty := TargetIsEmpty(disk, tools, s);
    if !empty { return None; }
    var intact := StagedUnchanged(disk, tools, s, pending.databases);
    if !intact { return None; }
    if BackupHome(s) in disk.dirs || BackupHome(s) in disk.files { return None; }
    NoBackupYet(s, disk.files, disk.dirs);
    var made := disk.CreateDirAll(BackupDb(s));
    if !made { return None; }
    assert BackupDb(s)[..|BackupDb(s)|] == BackupDb(s);
    assert BackupDb(s)[..|BackupHome(s)|] == BackupHome(s);
    m := decoded;
  }

  /** What the swap and its rollback, if any, guarantee. `forward` counts the faults
      up to the end of the swap, before any rollback. */
  ghost predicate Swapped(disk: Disk, before: Files, start: nat, s: Site, kinds: seq<Kind>,
                          r: Outcome, forward: nat, g: Progress, h: Progress, stuck: set<string>)
    reads disk
    requires start <= |disk.moves|
  {
    && forward <= disk.faults
    && (r.RollbackFailed? ==> disk.faults > forward)
    && (r.Activated? ==> Distinct(kinds) && g == Planned(s, before, kinds) &&
                         Shape(s, before, disk.files, g))
    && (Distinct(kinds) && r.RolledBack? ==> disk.files == before)
    && (Distinct(kinds) && r.RollbackFailed? ==>
          RollbackShape(disk, s, before, g, h, stuck, start) && g.live <= MainNames(kinds))
    && (Distinct(kinds) && !r.RollbackFailed? ==> AllGood(s, before, disk.moves[start..]))
  }

  /** The `n`-th kind is the first one listed a second time. */
  predicate Repeats(kinds: seq<Kind>, n: nat) {
    n < |kinds| && Distinct(kinds[..n]) && kinds[n] in kinds[..n]
  }

  /** The staged database of the first kind that is listed twice was renamed over the
      old database, and nothing else changed. */
  ghost predicate OverwroteRepeated(s: Site, before: Files, now: Files, kinds: seq<Kind>) {
    exists n :: 0 <= n < |kinds| && Repeats(kinds, n) && IsStagedOver(s, before, now, kinds[n])
  }

  predicate IsStagedOver(s: Site, before: Files, now: Files, k: Kind) {
    Staged(s, FileName(k)) in before && now == StagedOver(s, before, k)
  }

  /** Swaps the listed databases in, or undoes an interrupted swap. */
  method SwapOrUndo(disk: Disk, s: Site, kinds: seq<Kind>)
    returns (r: Outcome, ghost forward: nat, ghost g: Progress, ghost h: Progress, ghost stuck: set<string>)
    requires ValidSite(s) && FreshBackup(s, disk.files) && BackupDb(s) in disk.dirs
    requires forall k <- kinds :: Staged(s, FileName(k)) in disk.files
    modifies disk
    ensures old(disk.dirs) <= disk.dirs && old(disk.moves) <= disk.moves
    ensures r.Activated? || r.RolledBack? || r.RollbackFailed?
    ensures Swapped(disk, old(disk.files), |old(disk.moves)|, s, kinds, r, forward, g, h, stuck)
    // A swap that stops does so for a fault, unless a kind is listed twice.
    ensures forward >= old(disk.faults) && (Distinct(kinds) && !r.Activated? ==> forward > old(disk.faults))
    ensures disk.faults == old(disk.faults) ==>
              if Distinct(kinds) then r.Activated?
              else r.RolledBack? && OverwroteRepeated(s, old(disk.files), disk.files, kinds)
  {
    ghost var before, start := disk.files, |disk.moves|;
    var ok, activated;
    ok, activated, g := Swap(disk, s, kinds);
    forward, h, stuck := disk.faults, g, {};
    if ok { return Activated, forward, g, h, stuck; }
    ghost var done, next := kinds[..|activated|], kinds[|activated|];
    ghost var again := next in done;
    // A rollback from a repeated kind is one from the file table with its staged content in place.
    ok, h, stuck := Rollback(disk, s, activated, done, if again then StagedOver(s, before, next) else before,
                             if again then Redone(s, before, done, next) else g,
                             if again then |disk.moves| else start);
    r := if ok then RolledBack else RollbackFailed;
    if !again {
      if ok {
        ShapeRestored(s, before, disk.files);
        assert RollbackShape(disk, s, before, g, h, stuck, start);
      }
    } else {
      assert !Distinct(kinds) && Repeats(kinds, |activated|);
      if disk.faults == old(disk.faults) {
        OverIsFresh(s, before, next);
        ShapeRestored(s, StagedOver(s, before, next), disk.files);
      }
    }
  }

  /** Everything an activation that began to move guarantees. `swapped` is the
      file table when the swap, or its rollback, ended. */
  ghost predicate AfterSwap(disk: Disk, before: Files, start: nat, s: Site, kinds: seq<Kind>,
                            r: Outcome, swapped: Files, forward: nat, g: Progress, h: Progress, stuck: set<string>)
    reads disk
    requires start <= |disk.moves|
  {
    && (r.Activated? || r.ManifestLeft? || r.StagingLeft? ==>
          && Distinct(kinds) && g == Planned(s, before, kinds) && Shape(s, before, swapped, g)
          && AllGood(s, before, disk.moves[start..]))
    && (r.RolledBack? || r.RollbackFailed? ==> Swapped(disk, before, start, s, kinds, r, forward, g, h, stuck))
    && (r.ManifestLeft? ==> disk.files == swapped)
    && (r.StagingLeft? ==> forall p ::
          At(disk.files, p) == At(swapped - {ManifestPath(s.home)}, p) ||
          (Inside(s.staging, p) && p !in disk.files))
    && (r.Activated? ==> disk.files == Without(swapped - {ManifestPath(s.home)}, s.staging))
  }

  lemma OutsideStaging(s: Site, name: string)
    requires ValidSite(s)
    ensures !Inside(s.staging, Live(s, name)) && !Inside(s.staging, Backup(s, name))
    ensures Live(s, name) != ManifestPath(s.home) && Backup(s, name) != ManifestPath(s.home)
  {
    var n := |s.home|;
    assert DB != STAGING && BACKUPS != STAGING && "import" != DB && "import" != BACKUPS;
    assert s.staging[n] == STAGING && Live(s, name)[n] == DB && Backup(s, name)[n] == BACKUPS;
    assert ManifestPath(s.home)[n] == "import";
  }

  /** What a swap put in place stays there when the manifest and staging go. */
  lemma SwapStays(s: Site, before: Files, swapped: Files, now: Files, kinds: seq<Kind>, k: Kind)
    requires ValidSite(s) && FreshBackup(s, before) && k in kinds
    requires Shape(s, before, swapped, Planned(s, before, kinds))
    requires forall p :: At(now, p) == At(swapped, p) || p == ManifestPath(s.home) || Inside(s.staging, p)
    ensures At(now, Live(s, FileName(k))) == At(before, Staged(s, FileName(k)))
    ensures forall i :: 0 <= i < 3 ==>
              At(now, Backup(s, Component(k, i))) == At(before, Live(s, Component(k, i)))
  {
    PlannedMeans(s, before, swapped, kinds, k);
    OutsideStaging(s, FileName(k));
    forall i | 0 <= i < 3 ensures At(now, Backup(s, Component(k, i))) == At(swapped, Backup(s, Component(k, i))) {
      OutsideStaging(s, Component(k, i));
    }
  }

  /** The same in terms of the paths. */
  lemma SwapShows(s: Site, before: Files, swapped: Files, now: Files, kinds: seq<Kind>, k: Kind)
    requires ValidSite(s) && FreshBackup(s, before) && k in kinds
    requires Shape(s, before, swapped, Planned(s, before, kinds))
    requires forall p :: At(now, p) == At(swapped, p) || p == ManifestPath(s.home) || Inside(s.staging, p)
    ensures At(now, s.home + ["db", FileName(k)]) == At(before, s.staging + ["db", FileName(k)])
    ensures forall suffix <- ["", "-wal", "-shm"] ::
              At(now, s.home + ["import-backups", s.plan, "db", FileName(k) + suffix]) ==
              At(before, s.home + ["db", FileName(k) + suffix])
  {
    SwapStays(s, before, swapped, now, kinds, k);
    var suffixes := ["", "-wal", "-shm"];
    forall i | 0 <= i < 3
      ensures At(now, s.home + ["import-backups", s.plan, "db", FileName(k) + suffixes[i]]) ==
              At(before, s.home + ["db", FileName(k) + suffixes[i]])
    {
      var c := Component(k, i);
      assert c == FileName(k) + suffixes[i];
      assert Backup(s, c) == s.home + ["import-backups", s.plan, "db", c];
    }
  }

  /** Every listed database has its staged content, and its old components are in the
      backup. */
  ghost predicate InPlace(s: Site, before: Files, now: Files, databases: seq<PendingDatabase>) {
    forall d <- databases ::
      && At(now, s.home + ["db", FileName(d.kind)]) == At(before, s.staging + ["db", FileName(d.kind)])
      && forall suffix <- ["", "-wal", "-shm"] ::
           At(now, s.home + ["import-backups", s.plan, "db", FileName(d.kind) + suffix]) ==
           At(before, s.home + ["db", FileName(d.kind) + suffix])
  }

  lemma SwapAllShows(s: Site, before: Files, swapped: Files, now: Files, databases: seq<PendingDatabase>)
    requires ValidSite(s) && FreshBackup(s, before)
    requires Shape(s, before, swapped, Planned(s, before, KindsOf(databases)))
    requires forall p :: At(now, p) == At(swapped, p) || p == ManifestPath(s.home) || Inside(s.staging, p)
    ensures InPlace(s, before, now, databases)
  {
    forall d <- databases ensures d.kind in KindsOf(databases) {
      var i :| 0 <= i < |databases| && databases[i] == d;
      assert KindsOf(databases)[i] == d.kind;
    }
    forall d <- databases {
      SwapShows(s, before, swapped, now, KindsOf(databases), d.kind);
    }
  }

  /** Swaps the databases of an admissible manifest in and clears up. */
  method Proceed(disk: Disk, home: Path, m: Manifest)
    returns (r: Outcome, ghost swapped: Files, ghost forward: nat,
             ghost g: Progress, ghost h: Progress, ghost stuck: set<string>)
    requires var s := SiteOf(home, m);
             ValidSite(s) && FreshBackup(s, disk.files) && BackupDb(s) in disk.dirs && s.staging in disk.dirs
    requires ManifestPath(home) in disk.files
    requires forall d <- m.databases :: Staged(SiteOf(home, m), FileName(d.kind)) in disk.files
    modifies disk
    ensures !r.Refused? && old(disk.moves) <= disk.moves && disk.faults >= old(disk.faults)
    ensures AfterSwap(disk, old(disk.files), |old(disk.moves)|, SiteOf(home, m), KindsOf(m.databases),
                      r, swapped, forward, g, h, stuck)
    ensures r.Activated? || r.ManifestLeft? || r.StagingLeft? ==>
              InPlace(SiteOf(home, m), old(disk.files), disk.files, m.databases)
    ensures forward >= old(disk.faults) && (r.RollbackFailed? ==> disk.faults > forward)
    ensures (r.RolledBack? || r.RollbackFailed?) && Distinct(KindsOf(m.databases)) ==>
              forward > old(disk.faults) && (disk.faults == forward ==> disk.files == old(disk.files))
    ensures r.RolledBack? || r.RollbackFailed? ==> old(disk.dirs) <= disk.dirs
    ensures disk.faults == old(disk.faults) ==>
              if Distinct(KindsOf(m.databases)) then r.Activated?
              else r.RolledBack? && OverwroteRepeated(SiteOf(home, m), old(disk.files), disk.files,
                                                      KindsOf(m.databases))
  {
    var s, kinds := SiteOf(home, m), KindsOf(m.databases);
    ghost var before := disk.files;
    forall k <- kinds ensures Staged(s, FileName(k)) in disk.files {
      var i :| 0 <= i < |kinds| && kinds[i] == k;
      assert m.databases[i] in m.databases;
    }
    r, forward, g, h, stuck := SwapOrUndo(disk, s, kinds);
    swapped := disk.files;
    if !r.Activated? { return; }
    ManifestStays(s, before, disk.files, g);
    var cleared := disk.RemoveFile(ManifestPath(home));
    if !cleared {
      SwapAllShows(s, before, swapped, disk.files, m.databases);
      r := ManifestLeft;
      return;
    }
    if s.staging in disk.dirs {
      var cleaned := disk.RemoveDirAll(s.staging);
      if !cleaned { r := StagingLeft; }
    }
    SwapAllShows(s, before, swapped, disk.files, m.databases);
  }

  /** Activates the pending import, if the disk holds an admissible one. The
      ghost results are the file table after the swap, the faults until then, and
      how far the import came before (`g`) and after (`h`, `stuck`) a rollback. */
  method Activate(disk: Disk, tools: Tools, home: Path)
    returns (r: Outcome, ghost swapped: Files, ghost forward: nat,
             ghost g: Progress, ghost h: Progress, ghost stuck: set<string>)
    requires disk.ParentsExist()
    modifies disk
    // An import begins only, and without faults always, under these conditions.
    ensures !r.Refused? || disk.faults == old(disk.faults) ==>
              (!r.Refused? <==>
                 && home + ["import", "pending.json"] in old(disk.files)
                 && var decoded := tools.decode(old(disk.files)[home + ["import", "pending.json"]]);
                 && decoded.Some?
                 && var m := decoded.value;
                 && m.version == 1 && 0 < |m.planId| <= 128
                 && (forall c <- m.planId ::
                       'a' <= c <= 'z' || 'A' <= c <= 'Z' || '0' <= c <= '9' || c == '-' || c == '_')
                 && home + ["import-staging"] in old(disk.dirs) && m.stagingHome in old(disk.dirs)
                 && home + ["import-staging"] < m.stagingHome
                 && home + ["import-backups", m.planId] !in old(disk.dirs)
                 && home + ["import-backups", m.planId] !in old(disk.files)
                 && (forall name <- ["product_projections.db", "product.db", "agent_runtime.db", "lilia.db"] ::
                       home + ["db", name] in old(disk.files) ==>
                         tools.userData(old(disk.files)[home + ["db", name]]) == Some(false))
                 && (forall d <- m.databases ::
                       var p := m.stagingHome + ["db", FileName(d.kind)];
                       && p in old(disk.files) && |old(disk.files)[p]| == d.length
                       && tools.sha256(old(disk.files)[p]) == d.sha256 && tools.intact(old(disk.files)[p])))
    // A swap that is not undone has put every staged database in place, and every old
    // component in the backup.
    ensures r.Activated? || r.ManifestLeft? || r.StagingLeft? ==>
              var m := tools.decode(old(disk.files)[home + ["import", "pending.json"]]).value;
              forall d <- m.databases ::
                && At(disk.files, home + ["db", FileName(d.kind)]) ==
                   At(old(disk.files), m.stagingHome + ["db", FileName(d.kind)])
                && forall suffix <- ["", "-wal", "-shm"] ::
                     At(disk.files, home + ["import-backups", m.planId, "db", FileName(d.kind) + suffix]) ==
                     At(old(disk.files), home + ["db", FileName(d.kind) + suffix])
    // Refusal moves nothing and is forced by an inadmissible manifest.
    ensures r.Refused? ==> disk.files == old(disk.files) && disk.moves == old(disk.moves)
    ensures var m := PendingManifest(tools, old(disk.files), home);
            m.None? || !Admissible(tools, old(disk.files), old(disk.dirs), home, m.value) ==> r.Refused?
    ensures old(disk.moves) <= disk.moves && disk.faults >= old(disk.faults)
    ensures !r.Refused? ==>
              var m := PendingManifest(tools, old(disk.files), home).value;
              AfterSwap(disk, old(disk.files), |old(disk.moves)|, SiteOf(home, m), KindsOf(m.databases),
                        r, swapped, forward, g, h, stuck)
    // If the swap stops and nothing fails in its rollback, everything is restored.
    ensures r.RollbackFailed? ==> disk.faults > forward >= old(disk.faults)
    ensures forward >= old(disk.faults)
    ensures (r.RolledBack? || r.RollbackFailed?) &&
            Distinct(KindsOf(PendingManifest(tools, old(disk.files), home).value.databases)) ==>
              forward > old(disk.faults) && (disk.faults == forward ==> disk.files == old(disk.files))
    // An interrupted swap leaves the backup directory, so a retry is refused.
    ensures r.RolledBack? || r.RollbackFailed? ==>
              BackupHome(SiteOf(home, PendingManifest(tools, old(disk.files), home).value)) in disk.dirs
    // With nothing going wrong, activation succeeds exactly for distinct kinds.
    ensures var m := PendingManifest(tools, old(disk.files), home);
            disk.faults == old(disk.faults) && m.Some? &&
            Admissible(tools, old(disk.files), old(disk.dirs), home, m.value) ==>
              if Distinct(KindsOf(m.value.databases)) then r.Activated?
              else r.RolledBack? && OverwroteRepeated(SiteOf(home, m.value), old(disk.files), disk.files,
                                                      KindsOf(m.value.databases))
  {
    swapped, g, h, stuck, r := disk.files, START, START, {}, Refused;
    ghost var waiting := PendingManifest(tools, disk.files, home);
    if waiting.Some? { AdmissibleExactly(tools, disk.files, disk.dirs, home, waiting.value); }
    var pending := Prepare(disk, tools, home);
    forward := disk.faults;
    if pending.None? { return; }
    ghost var s := SiteOf(home, pending.value);
    forall d <- pending.value.databases ensures Staged(s, FileName(d.kind)) in disk.files {
      assert s.staging + ["db", FileName(d.kind)] == Staged(s, FileName(d.kind));
    }
    r, swapped, forward, g, h, stuck := Proceed(disk, home, pending.value);
  }

  lemma ManifestStays(s: Site, before: Files, now: Files, g: Progress)
    requires ValidSite(s) && Shape(s, before, now, g)
    ensures At(now, ManifestPath(s.home)) == At(before, ManifestPath(s.home))
  {
    ManifestElsewhere(s);
  }

  // ----- What the results mean -----

  /** After a completed swap every listed database has its staged content and no
      old sidecar, and every old component is in the backup. */
  lemma PlannedMeans(s: Site, before: Files, now: Files, kinds: seq<Kind>, k: Kind)
    requires ValidSite(s) && FreshBackup(s, before) && k in kinds
    requires Shape(s, before, now, Planned(s, before, kinds))
    ensures At(now, Live(s, FileName(k))) == At(before, Staged(s, FileName(k)))
    ensures Staged(s, FileName(k)) !in now
    ensures forall i :: 0 < i < 3 ==> Live(s, Component(k, i)) !in now
    ensures forall i :: 0 <= i < 3 ==>
              At(now, Backup(s, Component(k, i))) == At(before, Live(s, Component(k, i)))
    ensures Conserved(s, before, now)
  {
    var g := Planned(s, before, kinds);
    ShapeConserved(s, before, now, g);
    Places(s, FileName(k));
    assert At(now, Staged(s, FileName(k))) == None;
    forall i | 0 <= i < 3
      ensures 0 < i ==> Live(s, Component(k, i)) !in now
      ensures At(now, Backup(s, Component(k, i))) == At(before, Live(s, Component(k, i)))
    {
      var c := Component(k, i);
      assert c in AllComponents(kinds);
      Places(s, c);
      if 0 < i {
        forall l ensures FileName(l) != c {
          assert Component(l, 0) == FileName(l);
          if FileName(l) == c { ComponentsInjective(l, 0, k, i); }
        }
        assert c !in g.live;
        assert At(now, Live(s, c)) == None;
      }
    }
  }

  /** The rollback's overwrite is real: whenever an old component is aside and
      its staged database is live, a failed withdrawal followed by a successful
      put-back leaves the staged content in neither place. */
  lemma OverwriteLosesStaged(s: Site, before: Files, now: Files, g: Progress, c: string)
    requires ValidSite(s) && Shape(s, before, now, g) && c in g.live && c in g.aside
    ensures Backup(s, c) in now
    ensures var next := Moved(now, Backup(s, c), Live(s, c));
            && !Clean(Move(now, Backup(s, c), Live(s, c)))
            && At(next, Live(s, c)) == At(before, Live(s, c)) && Staged(s, c) !in next
            && (At(before, Staged(s, c)) != At(before, Live(s, c)) ==> !Conserved(s, before, next))
  {
    PutBack(s, before, now, g, c);
    LostIsGone(s, before, Moved(now, Backup(s, c), Live(s, c)), AfterPutBack(g, c), c);
  }

  /** From any file table that holds an old and a staged database of one name: swapping
      it in and putting the old one back, with the withdrawal in between failing,
      deletes the staged database and changes nothing else. */
  lemma RollbackCanLose(s: Site, before: Files, c: string)
    requires ValidSite(s) && FreshBackup(s, before) && Live(s, c) in before && Staged(s, c) in before
    ensures Clean(Move(before, Live(s, c), Backup(s, c)))
    ensures var aside := Moved(before, Live(s, c), Backup(s, c));
            && Staged(s, c) in aside && Clean(Move(aside, Staged(s, c), Live(s, c)))
            && var swapped := Moved(aside, Staged(s, c), Live(s, c));
               && Backup(s, c) in swapped && !Clean(Move(swapped, Backup(s, c), Live(s, c)))
               && Moved(swapped, Backup(s, c), Live(s, c)) == before - {Staged(s, c)}
  {
    ShapeAtStart(s, before);
    SetAside(s, before, before, START, c);
    Places(s, c);
    var aside := Moved(before, Live(s, c), Backup(s, c));
    MovedAt(before, Live(s, c), Backup(s, c));
    var g := START.(aside := START.aside + {c});
    assert At(aside, Staged(s, c)) == At(before, Staged(s, c)) && At(aside, Live(s, c)) == None;
    GoLive(s, before, aside, g, c);
    OverwriteLosesStaged(s, before, Moved(aside, Staged(s, c), Live(s, c)), g.(live := g.live + {c}), c);
  }
}
