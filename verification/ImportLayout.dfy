/** Where a pending data import keeps its files, and the shape of the file table
    while databases are swapped. */
module ImportLayout {
  import opened Text

  type Content = seq<Byte>
  type Path = seq<string>
  type Files = map<Path, Content>

  datatype Kind = ProductProjections | Product | AgentRuntime | LegacyDesktop

  function FileName(kind: Kind): string {
    match kind
    case ProductProjections => "product_projections.db"
    case Product => "product.db"
    case AgentRuntime => "agent_runtime.db"
    case LegacyDesktop => "lilia.db"
  }

  /** A database and its two SQLite sidecars. */
  function Component(kind: Kind, i: nat): string
    requires i < 3
  {
    FileName(kind) + (if i == 0 then "" else if i == 1 then "-wal" else "-shm")
  }

  lemma ComponentsInjective(k: Kind, i: nat, l: Kind, j: nat)
    requires i < 3 && j < 3 && Component(k, i) == Component(l, j)
    ensures k == l && i == j
  {
    var a, b := Component(k, i), Component(l, j);
    assert i == 0 ==> a == FileName(k);
    assert j == 0 ==> b == FileName(l);
    assert a[|a| - 1] == if i == 0 then 'b' else if i == 1 then 'l' else 'm';
    assert b[|b| - 1] == if j == 0 then 'b' else if j == 1 then 'l' else 'm';
    assert i == j;
    assert |FileName(k)| == |FileName(l)|;
  }

  /** The directories of one import. */
  datatype Site = Site(home: Path, staging: Path, plan: string)

  const DB := "db"
  const STAGING := "import-staging"
  const BACKUPS := "import-backups"

  function Live(s: Site, name: string): Path { s.home + [DB, name] }
  function Staged(s: Site, name: string): Path { s.staging + [DB, name] }
  function BackupHome(s: Site): Path { s.home + [BACKUPS, s.plan] }
  function BackupDb(s: Site): Path { BackupHome(s) + [DB] }
  function Backup(s: Site, name: string): Path { BackupDb(s) + [name] }
  function ManifestPath(home: Path): Path { home + ["import", "pending.json"] }

  /** `path` lies strictly inside the directory `dir`. */
  predicate Inside(dir: Path, path: Path) { dir < path }

  predicate ValidSite(s: Site) { Inside(s.home + [STAGING], s.staging) }

  /** The part a path plays in an import. */
  datatype Place = AtLive(name: string) | AtStaged(name: string) | AtBackup(name: string) | Elsewhere

  function Where(s: Site, p: Path): Place {
    if p == [] then Elsewhere
    else var name := p[|p| - 1];
      if p == Live(s, name) then AtLive(name)
      else if p == Staged(s, name) then AtStaged(name)
      else if p == Backup(s, name) then AtBackup(name)
      else Elsewhere
  }

  /** No path plays two parts. */
  lemma Places(s: Site, name: string)
    requires ValidSite(s)
    ensures Where(s, Live(s, name)) == AtLive(name)
    ensures Where(s, Staged(s, name)) == AtStaged(name)
    ensures Where(s, Backup(s, name)) == AtBackup(name)
  {
    var n := |s.home|;
    assert DB != STAGING && BACKUPS != STAGING && DB != BACKUPS;
    assert s.staging[n] == STAGING;
    assert Live(s, name)[n] == DB && Backup(s, name)[n] == BACKUPS && Staged(s, name)[n] == STAGING;
    assert Live(s, name)[|Live(s, name)| - 1] == name;
    assert Staged(s, name)[|Staged(s, name)| - 1] == name;
    assert Backup(s, name)[|Backup(s, name)| - 1] == name;
  }

  lemma PlaceOf(s: Site, p: Path)
    ensures match Where(s, p)
            case AtLive(name) => p == Live(s, name)
            case AtStaged(name) => p == Staged(s, name)
            case AtBackup(name) => p == Backup(s, name)
            case Elsewhere => true
  {}

  lemma ManifestElsewhere(s: Site)
    requires ValidSite(s)
    ensures Where(s, ManifestPath(s.home)) == Elsewhere
    ensures !Inside(s.staging, ManifestPath(s.home))
  {
    var n, m := |s.home|, ManifestPath(s.home);
    assert "import" != DB && "import" != STAGING && "import" != BACKUPS;
    assert s.staging[n] == STAGING && m[n] == "import";
    var name := m[|m| - 1];
    assert Live(s, name)[n] == DB && Staged(s, name)[n] == STAGING && Backup(s, name)[n] == BACKUPS;
  }

  function At(files: Files, p: Path): Option<Content> {
    if p in files then Some(files[p]) else None
  }

  function Moved(files: Files, from: Path, to: Path): Files
    requires from in files
  {
    (files - {from})[to := files[from]]
  }

  lemma MovedAt(files: Files, from: Path, to: Path)
    requires from in files && from != to
    ensures forall p: Path :: At(Moved(files, from, to), p) ==
                      if p == to then At(files, from) else if p == from then None else At(files, p)
  {}

  /** How far an import has come: the names moved to the backup, the names whose
      staged database is in the database directory, and the names put back over
      their staged database. */
  datatype Progress = Progress(aside: set<string>, live: set<string>, lost: set<string>)

  const START := Progress({}, {}, {})

  /** What an import that has come this far leaves at a path. */
  function Expected(s: Site, before: Files, g: Progress, p: Path): Option<Content> {
    match Where(s, p)
    case AtLive(c) =>
      if c in g.live then At(before, Staged(s, c)) else if c in g.aside then None else At(before, p)
    case AtStaged(c) => if c in g.live || c in g.lost then None else At(before, p)
    case AtBackup(c) => if c in g.aside then At(before, Live(s, c)) else None
    case Elsewhere => At(before, p)
  }

  predicate ValidProgress(s: Site, before: Files, g: Progress) {
    && (forall c <- g.aside :: Live(s, c) in before)
    && (forall c <- g.live :: Staged(s, c) in before && (Live(s, c) in before ==> c in g.aside))
    && g.lost !! g.aside && g.lost !! g.live
  }

  ghost predicate Shape(s: Site, before: Files, now: Files, g: Progress) {
    && ValidProgress(s, before, g)
    && forall p: Path :: At(now, p) == Expected(s, before, g, p)
  }

  ghost predicate FreshBackup(s: Site, files: Files) {
    forall p <- files :: !Where(s, p).AtBackup?
  }

  lemma ShapeAtStart(s: Site, files: Files)
    requires FreshBackup(s, files)
    ensures Shape(s, files, files, START)
  {}

  /** An import that has moved nothing, or put everything back, leaves the file
      table of before. */
  lemma ShapeRestored(s: Site, before: Files, now: Files)
    requires Shape(s, before, now, START) && FreshBackup(s, before)
    ensures now == before
  {
    forall p: Path ensures At(now, p) == At(before, p) {}
    assert forall p <- now :: At(now, p) == At(before, p);
    assert forall p <- before :: At(now, p) == At(before, p);
  }

  /** Every component that was in the database directory is there or in the
      backup, every staged file is in staging or in the database directory, and
      no other file changed. */
  ghost predicate Conserved(s: Site, before: Files, now: Files) {
    && (forall c: string :: Live(s, c) in before ==>
          At(now, Live(s, c)) == At(before, Live(s, c)) || At(now, Backup(s, c)) == At(before, Live(s, c)))
    && (forall c: string :: Staged(s, c) in before ==>
          At(now, Staged(s, c)) == At(before, Staged(s, c)) || At(now, Live(s, c)) == At(before, Staged(s, c)))
    && (forall p: Path :: Where(s, p) == Elsewhere ==> At(now, p) == At(before, p))
  }

  /** As long as nothing is lost, everything is conserved. */
  lemma ShapeConserved(s: Site, before: Files, now: Files, g: Progress)
    requires ValidSite(s) && Shape(s, before, now, g) && g.lost == {}
    ensures Conserved(s, before, now)
  {
    forall c: string | Live(s, c) in before
      ensures At(now, Live(s, c)) == At(before, Live(s, c)) ||
              At(now, Backup(s, c)) == At(before, Live(s, c))
    {
      Places(s, c);
    }
    forall c: string | Staged(s, c) in before
      ensures At(now, Staged(s, c)) == At(before, Staged(s, c)) ||
              At(now, Live(s, c)) == At(before, Staged(s, c))
    {
      Places(s, c);
    }
  }

  // ----- The four moves -----

  lemma SetAside(s: Site, before: Files, now: Files, g: Progress, c: string)
    requires ValidSite(s) && Shape(s, before, now, g) && g.lost == {}
    requires c !in g.live && Live(s, c) in now
    ensures Backup(s, c) !in now && c !in g.aside
    ensures Shape(s, before, Moved(now, Live(s, c), Backup(s, c)), g.(aside := g.aside + {c}))
  {
    Places(s, c);
    assert At(now, Live(s, c)).Some? && At(now, Backup(s, c)) == None;
    MovedAt(now, Live(s, c), Backup(s, c));
    forall p: Path
      ensures At(Moved(now, Live(s, c), Backup(s, c)), p) ==
              Expected(s, before, g.(aside := g.aside + {c}), p)
    {
      PlaceOf(s, p);
    }
  }

  lemma GoLive(s: Site, before: Files, now: Files, g: Progress, c: string)
    requires ValidSite(s) && Shape(s, before, now, g) && g.lost == {}
    requires Staged(s, c) in now && Live(s, c) !in now
    ensures c !in g.live
    ensures Shape(s, before, Moved(now, Staged(s, c), Live(s, c)), g.(live := g.live + {c}))
  {
    Places(s, c);
    assert At(now, Staged(s, c)).Some? && At(now, Live(s, c)) == None;
    MovedAt(now, Staged(s, c), Live(s, c));
    forall p: Path
      ensures At(Moved(now, Staged(s, c), Live(s, c)), p) ==
              Expected(s, before, g.(live := g.live + {c}), p)
    {
      PlaceOf(s, p);
    }
  }

  lemma Withdraw(s: Site, before: Files, now: Files, g: Progress, c: string)
    requires ValidSite(s) && Shape(s, before, now, g) && g.lost == {} && c in g.live
    ensures Live(s, c) in now && Staged(s, c) !in now
    ensures Shape(s, before, Moved(now, Live(s, c), Staged(s, c)), g.(live := g.live - {c}))
  {
    Places(s, c);
    assert At(now, Live(s, c)) == At(before, Staged(s, c)) && At(now, Staged(s, c)) == None;
    MovedAt(now, Live(s, c), Staged(s, c));
    forall p: Path
      ensures At(Moved(now, Live(s, c), Staged(s, c)), p) ==
              Expected(s, before, g.(live := g.live - {c}), p)
    {
      PlaceOf(s, p);
    }
  }

  function AfterPutBack(g: Progress, c: string): Progress {
    Progress(g.aside - {c}, g.live - {c}, if c in g.live then g.lost + {c} else g.lost)
  }

  /** Putting a component back. If its staged database was not withdrawn before,
      the move overwrites it and the staged content is gone. */
  lemma PutBack(s: Site, before: Files, now: Files, g: Progress, c: string)
    requires ValidSite(s) && Shape(s, before, now, g) && c in g.aside
    ensures Backup(s, c) in now
    ensures Live(s, c) in now <==> c in g.live
    ensures Shape(s, before, Moved(now, Backup(s, c), Live(s, c)), AfterPutBack(g, c))
  {
    Places(s, c);
    assert At(now, Backup(s, c)) == At(before, Live(s, c));
    assert At(now, Live(s, c)) == if c in g.live then At(before, Staged(s, c)) else None;
    MovedAt(now, Backup(s, c), Live(s, c));
    forall p: Path
      ensures At(Moved(now, Backup(s, c), Live(s, c)), p) ==
              Expected(s, before, AfterPutBack(g, c), p)
    {
      PlaceOf(s, p);
    }
  }

  /** A lost name holds its old component again and its staged content is at
      neither of its two places. */
  lemma LostIsGone(s: Site, before: Files, now: Files, g: Progress, c: string)
    requires ValidSite(s) && Shape(s, before, now, g) && c in g.lost
    ensures Staged(s, c) !in now && At(now, Live(s, c)) == At(before, Live(s, c))
  {
    Places(s, c);
    assert At(now, Staged(s, c)) == None;
  }
}
