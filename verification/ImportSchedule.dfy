/** Scheduling a pending import: from an import report to a manifest on disk. */
module ImportSchedule {
  import opened Text
  import opened ImportLayout
  import opened PendingImport

  datatype ItemKind = Database(kind: Kind) | Credentials

  datatype Item = Item(kind: ItemKind, copied: bool)

  datatype Report = Report(completed: bool, planId: string, targetHome: Path, items: seq<Item>)

  predicate CopiedDatabase(item: Item, k: Kind) { item.copied && item.kind == Database(k) }

  predicate CopiedLegacy(items: seq<Item>) {
    exists i :: 0 <= i < |items| && CopiedDatabase(items[i], LegacyDesktop)
  }

  predicate Direct(item: Item) {
    item.copied && item.kind.Database? && item.kind.kind != LegacyDesktop
  }

  function DirectKinds(items: seq<Item>): seq<Kind> {
    if items == [] then []
    else DirectKinds(items[..|items| - 1]) +
         (if Direct(items[|items| - 1]) then [items[|items| - 1].kind.kind] else [])
  }

  /** The kinds a manifest lists for a report. */
  function ListedKinds(items: seq<Item>): seq<Kind> {
    var direct := DirectKinds(items);
    if CopiedLegacy(items) && Product !in direct then direct + [Product] else direct
  }

  predicate OneItemPerKind(items: seq<Item>) {
    forall i, j :: 0 <= i < j < |items| && Direct(items[i]) && Direct(items[j]) ==>
      items[i].kind != items[j].kind
  }

  predicate Copies(items: seq<Item>, k: Kind) {
    exists i :: 0 <= i < |items| && Direct(items[i]) && items[i].kind.kind == k
  }

  lemma CopiesSnoc(items: seq<Item>, last: Item, k: Kind)
    ensures Copies(items + [last], k) <==> Copies(items, k) || (Direct(last) && last.kind.kind == k)
  {
    var all := items + [last];
    assert all[|items|] == last;
    assert forall i :: 0 <= i < |items| ==> all[i] == items[i];
    if Copies(items, k) {
      var i :| 0 <= i < |items| && Direct(items[i]) && items[i].kind.kind == k;
      assert Direct(all[i]) && all[i].kind.kind == k;
    }
  }

  lemma OneItemSnoc(items: seq<Item>, last: Item)
    ensures OneItemPerKind(items + [last]) <==>
            OneItemPerKind(items) && (Direct(last) ==> !Copies(items, last.kind.kind))
  {
    var all := items + [last];
    assert all[|items|] == last;
    assert forall i :: 0 <= i < |items| ==> all[i] == items[i];
  }

  lemma {:induction false} DirectKindsAre(items: seq<Item>)
    ensures forall k :: k in DirectKinds(items) <==> Copies(items, k)
    ensures NoDup(DirectKinds(items)) <==> OneItemPerKind(items)
  {
    if items != [] {
      var init, last := items[..|items| - 1], items[|items| - 1];
      assert items == init + [last];
      DirectKindsAre(init);
      OneItemSnoc(init, last);
      forall k ensures k in DirectKinds(items) <==> Copies(items, k) {
        CopiesSnoc(init, last, k);
      }
      if Direct(last) {
        NoDupSnoc(DirectKinds(init), last.kind.kind);
      } else {
        assert DirectKinds(items) == DirectKinds(init);
      }
    }
  }

  /** A manifest lists no kind twice exactly when the report copies no kind twice;
      it never lists the legacy database, and lists Product when that was merged. */
  lemma ListedKindsProper(items: seq<Item>)
    ensures NoDup(ListedKinds(items)) <==> OneItemPerKind(items)
    ensures LegacyDesktop !in ListedKinds(items)
    ensures CopiedLegacy(items) ==> Product in ListedKinds(items)
    ensures forall k :: k != LegacyDesktop && k in ListedKinds(items) ==>
              (k == Product && CopiedLegacy(items)) ||
              exists i :: 0 <= i < |items| && CopiedDatabase(items[i], k)
  {
    DirectKindsAre(items);
    var direct, listed := DirectKinds(items), ListedKinds(items);
    NoDupSnoc(direct, Product);
    forall k | k in direct ensures exists i :: 0 <= i < |items| && CopiedDatabase(items[i], k) {
      var i :| 0 <= i < |items| && Direct(items[i]) && items[i].kind.kind == k;
      assert CopiedDatabase(items[i], k);
    }
  }

  datatype Result = Scheduled(manifest: Manifest) | NothingToSchedule | Failed

  function TemporaryPath(home: Path, pid: string): Path { home + ["import", "pending." + pid + ".tmp"] }

  /** Publishes a manifest, unless one is already waiting. */
  method WriteManifest(disk: Disk, tools: Tools, home: Path, m: Manifest, pid: string) returns (ok: bool)
    modifies disk
    ensures ok ==> ManifestPath(home) !in old(disk.files)
    ensures ok ==> At(disk.files, ManifestPath(home)) == Some(tools.encode(m))
    ensures !ok ==> At(disk.files, ManifestPath(home)) == At(old(disk.files), ManifestPath(home))
    ensures forall p :: p != ManifestPath(home) && p != TemporaryPath(home, pid) ==>
              At(disk.files, p) == At(old(disk.files), p)
    ensures old(disk.dirs) <= disk.dirs <= old(disk.dirs) + Prefixes(home + ["import"])
    ensures old(disk.ParentsExist()) ==> disk.ParentsExist()
    ensures disk.faults >= old(disk.faults) && (ok ==> disk.faults == old(disk.faults))
    ensures disk.faults == old(disk.faults) ==>
              (ok <==> ManifestPath(home) !in old(disk.files) && TemporaryPath(home, pid) !in old(disk.files))
  {
    var path, temporary := ManifestPath(home), TemporaryPath(home, pid);
    PathsDiffer(home, pid);
    assert path[..|path| - 1] == home + ["import"];
    if path in disk.files { return false; }
    ok := disk.CreateDirAll(path[..|path| - 1]);
    if !ok { return; }
    ParentsOf(home, pid, disk.dirs);
    if temporary in disk.files { return false; }
    // Writing may stop anywhere and leave a partial temporary file behind.
    ok := *;
    if !ok {
      var partial: Content := *;
      disk.files := disk.files[temporary := partial];
      disk.faults := disk.faults + 1;
      return;
    }
    disk.files := disk.files[temporary := tools.encode(m)];
    ok := disk.Rename(temporary, path);
  }

  function Prefixes(dir: Path): set<Path> { set n | 0 <= n <= |dir| :: dir[..n] }

  lemma ParentsOf(home: Path, pid: string, dirs: set<Path>)
    requires Prefixes(home + ["import"]) <= dirs
    ensures forall q: Path :: q < ManifestPath(home) || q < TemporaryPath(home, pid) ==> q in dirs
  {
    var dir := home + ["import"];
    forall q: Path | q < ManifestPath(home) || q < TemporaryPath(home, pid) ensures q in dirs {
      assert q == dir[..|q|];
    }
  }

  lemma PathsDiffer(home: Path, pid: string)
    ensures ManifestPath(home) != TemporaryPath(home, pid)
  {
    var a, b := "pending.json", "pending." + pid + ".tmp";
    assert a[|a| - 1] == 'n' && b[|b| - 1] == 'p';
    assert ManifestPath(home)[|home| + 1] == a && TemporaryPath(home, pid)[|home| + 1] == b;
  }

  /** The staged databases a manifest describes are in staging, unchanged. */
  predicate Describes(tools: Tools, files: Files, s: Site, d: PendingDatabase) {
    var p := Staged(s, FileName(d.kind));
    p in files && |files[p]| == d.length && tools.sha256(files[p]) == d.sha256
  }

  method Describe(disk: Disk, tools: Tools, s: Site, kind: Kind) returns (d: Option<PendingDatabase>)
    modifies disk`faults
    ensures d.Some? ==> d.value.kind == kind && Describes(tools, disk.files, s, d.value)
    ensures disk.faults >= old(disk.faults) && (d.Some? ==> disk.faults == old(disk.faults))
    ensures disk.faults == old(disk.faults) ==> (d.Some? <==> Staged(s, FileName(kind)) in disk.files)
  {
    var content := disk.Read(Staged(s, FileName(kind)));
    if content.None? { return None; }
    d := Some(PendingDatabase(kind, |content.value|, tools.sha256(content.value)));
  }

  /** Everything a report needs to be scheduled. */
  predicate Schedulable(files: Files, dirs: set<Path>, home: Path, report: Report, pid: string) {
    var s := Site(home, report.targetHome, report.planId);
    && report.completed && ValidStagingHome(dirs, home, report.targetHome) && ValidPlanId(report.planId)
    && ListedKinds(report.items) != []
    && (forall k <- ListedKinds(report.items) :: Staged(s, FileName(k)) in files)
    && ManifestPath(home) !in files && TemporaryPath(home, pid) !in files
  }

  /** The database that holds what was copied of a kind: legacy data is merged into the
      product database. */
  function Merged(k: Kind): Kind { if k == LegacyDesktop then Product else k }

  /** The kinds a manifest lists are those of the copied databases. */
  lemma ListedExactly(items: seq<Item>)
    ensures forall k :: k in ListedKinds(items) <==>
              exists item <- items :: item.copied && item.kind.Database? && Merged(item.kind.kind) == k
    ensures ListedKinds(items) == [] <==> forall item <- items :: !(item.copied && item.kind.Database?)
  {
    DirectKindsAre(items);
    forall k
      ensures k in ListedKinds(items) <==>
              exists item <- items :: item.copied && item.kind.Database? && Merged(item.kind.kind) == k
    {
      if k in ListedKinds(items) {
        if k in DirectKinds(items) {
          var i :| 0 <= i < |items| && Direct(items[i]) && items[i].kind.kind == k;
          assert items[i] in items;
        } else {
          var i :| 0 <= i < |items| && CopiedDatabase(items[i], LegacyDesktop);
          assert items[i] in items;
        }
      }
      if item :| item in items && item.copied && item.kind.Database? && Merged(item.kind.kind) == k {
        var i :| 0 <= i < |items| && items[i] == item;
        if item.kind.kind == LegacyDesktop {
          assert CopiedDatabase(items[i], LegacyDesktop);
        } else {
          assert Direct(items[i]) && Copies(items, k);
        }
      }
    }
    if ListedKinds(items) != [] { assert ListedKinds(items)[0] in ListedKinds(items); }
    if item :| item in items && item.copied && item.kind.Database? {
      assert Merged(item.kind.kind) in ListedKinds(items);
    }
  }

  /** When a report can be scheduled, in terms of its items. */
  lemma SchedulableExactly(files: Files, dirs: set<Path>, home: Path, report: Report, pid: string)
    ensures Schedulable(files, dirs, home, report, pid) <==>
            && report.completed && 0 < |report.planId| <= 128
            && (forall c <- report.planId ::
                  'a' <= c <= 'z' || 'A' <= c <= 'Z' || '0' <= c <= '9' || c == '-' || c == '_')
            && home + ["import-staging"] in dirs && report.targetHome in dirs
            && home + ["import-staging"] < report.targetHome
            && home + ["import", "pending.json"] !in files && home + ["import", "pending." + pid + ".tmp"] !in files
            && (exists item <- report.items :: item.copied && item.kind.Database?)
            && (forall item <- report.items :: item.copied && item.kind.Database? ==>
                  report.targetHome + ["db", FileName(Merged(item.kind.kind))] in files)
  {
    var s, listed := Site(home, report.targetHome, report.planId), ListedKinds(report.items);
    ListedExactly(report.items);
    assert forall i :: 0 <= i < |report.planId| ==> report.planId[i] in report.planId;
    assert forall k :: Staged(s, FileName(k)) == report.targetHome + ["db", FileName(k)];
    if Schedulable(files, dirs, home, report, pid) {
      forall item <- report.items | item.copied && item.kind.Database?
        ensures report.targetHome + ["db", FileName(Merged(item.kind.kind))] in files
      {
        assert Merged(item.kind.kind) in listed;
      }
    }
  }

  predicate NothingCopied(dirs: set<Path>, home: Path, report: Report) {
    !report.completed || (ValidStagingHome(dirs, home, report.targetHome) && ListedKinds(report.items) == [])
  }

  lemma DirectIsListed(items: seq<Item>, i: nat)
    requires i < |items| && Direct(items[i])
    ensures items[i].kind.kind in ListedKinds(items) && ListedKinds(items) != []
  {
    DirectKindsAre(items);
    assert Copies(items, items[i].kind.kind);
    assert items[i].kind.kind in DirectKinds(items);
  }

  /** Describes the listed databases, unless one cannot be read. */
  method DescribeListed(disk: Disk, tools: Tools, s: Site, items: seq<Item>) returns (r: Option<seq<PendingDatabase>>)
    modifies disk`faults
    ensures r.Some? ==> KindsOf(r.value) == ListedKinds(items) && disk.faults == old(disk.faults)
    ensures r.Some? ==> forall i :: 0 <= i < |r.value| ==> Describes(tools, disk.files, s, r.value[i])
    ensures disk.faults >= old(disk.faults)
    ensures disk.faults == old(disk.faults) ==>
              (r.Some? <==> forall k <- ListedKinds(items) :: Staged(s, FileName(k)) in disk.files)
  {
    var copiedLegacy := exists i :: 0 <= i < |items| && CopiedDatabase(items[i], LegacyDesktop);
    var databases: seq<PendingDatabase> := [];
    for i := 0 to |items|
      invariant disk.faults == old(disk.faults)
      invariant KindsOf(databases) == DirectKinds(items[..i])
      invariant forall j :: 0 <= j < |databases| ==> Describes(tools, disk.files, s, databases[j])
    {
      var item := items[i];
      assert items[..i + 1][..i] == items[..i];
      if item.kind.Credentials? || !item.copied || item.kind.kind == LegacyDesktop { continue; }
      var d := Describe(disk, tools, s, item.kind.kind);
      if d.None? {
        DirectIsListed(items, i);
        return None;
      }
      databases := databases + [d.value];
    }
    assert items[..|items|] == items;
    var direct := KindsOf(databases);
    if copiedLegacy && Product !in direct {
      var d := Describe(disk, tools, s, Product);
      if d.None? { return None; }
      databases := databases + [d.value];
    }
    DescribedExist(tools, disk.files, s, databases);
    r := Some(databases);
  }

  lemma DescribedExist(tools: Tools, files: Files, s: Site, databases: seq<PendingDatabase>)
    requires forall i :: 0 <= i < |databases| ==> Describes(tools, files, s, databases[i])
    ensures forall k <- KindsOf(databases) :: Staged(s, FileName(k)) in files
  {}

  /** Schedules the databases a completed report copied into staging, after any
      legacy database has been merged there. */
  method Schedule(disk: Disk, tools: Tools, home: Path, report: Report, pid: string) returns (r: Result)
    modifies disk
    ensures r.Scheduled? ==>
              var m, s := r.manifest, SiteOf(home, r.manifest);
              && report.completed && ManifestPath(home) !in old(disk.files)
              && At(disk.files, ManifestPath(home)) == Some(tools.encode(m))
              && m.version == MANIFEST_VERSION && m.planId == report.planId && ValidPlanId(m.planId)
              && m.stagingHome == report.targetHome && ValidStagingHome(disk.dirs, home, m.stagingHome)
              && KindsOf(m.databases) == ListedKinds(report.items) && m.databases != []
              && forall i :: 0 <= i < |m.databases| ==> Describes(tools, disk.files, s, m.databases[i])
    ensures !r.Scheduled? ==> At(disk.files, ManifestPath(home)) == At(old(disk.files), ManifestPath(home))
    ensures forall p :: p != ManifestPath(home) && p != TemporaryPath(home, pid) ==>
              At(disk.files, p) == At(old(disk.files), p)
    ensures old(disk.dirs) <= disk.dirs <= old(disk.dirs) + Prefixes(home + ["import"])
    ensures old(disk.ParentsExist()) ==> disk.ParentsExist()
    ensures disk.faults >= old(disk.faults) && (r.Scheduled? ==> disk.faults == old(disk.faults))
    ensures disk.faults == old(disk.faults) ==>
              && (r.Scheduled? <==> Schedulable(old(disk.files), old(disk.dirs), home, report, pid))
              && (r.NothingToSchedule? <==> NothingCopied(old(disk.dirs), home, report))
    // Without faults, in terms of the items: a copied legacy database counts as the
    // product database it was merged into.
    ensures disk.faults == old(disk.faults) ==>
              (r.Scheduled? <==>
                 && report.completed && 0 < |report.planId| <= 128
                 && (forall c <- report.planId ::
                       'a' <= c <= 'z' || 'A' <= c <= 'Z' || '0' <= c <= '9' || c == '-' || c == '_')
                 && home + ["import-staging"] in old(disk.dirs) && report.targetHome in old(disk.dirs)
                 && home + ["import-staging"] < report.targetHome
                 && home + ["import", "pending.json"] !in old(disk.files)
                 && home + ["import", "pending." + pid + ".tmp"] !in old(disk.files)
                 && (exists item <- report.items :: item.copied && item.kind.Database?)
                 && (forall item <- report.items :: item.copied && item.kind.Database? ==>
                       report.targetHome + ["db", FileName(Merged(item.kind.kind))] in old(disk.files)))
    ensures disk.faults == old(disk.faults) ==>
              (r.NothingToSchedule? <==>
                 !report.completed ||
                 (home + ["import-staging"] in old(disk.dirs) && report.targetHome in old(disk.dirs) &&
                  home + ["import-staging"] < report.targetHome &&
                  forall item <- report.items :: !(item.copied && item.kind.Database?)))
  {
    SchedulableExactly(disk.files, disk.dirs, home, report, pid);
    ListedExactly(report.items);
    if !report.completed { return NothingToSchedule; }
    if !ValidStagingHome(disk.dirs, home, report.targetHome) { return Failed; }
    var s := Site(home, report.targetHome, report.planId);
    var described := DescribeListed(disk, tools, s, report.items);
    if described.None? { return Failed; }
    var databases := described.value;
    if databases == [] { return NothingToSchedule; }
    if !ValidPlanId(report.planId) { return Failed; }
    var m := Manifest(MANIFEST_VERSION, report.planId, report.targetHome, databases);
    var ok := WriteManifest(disk, tools, home, m, pid);
    if !ok { return Failed; }
    forall i | 0 <= i < |databases| ensures Describes(tools, disk.files, s, databases[i]) {
      var p := Staged(s, FileName(databases[i].kind));
      assert At(disk.files, p) == At(old(disk.files), p);
    }
    r := Scheduled(m);
  }

  // ----- From the report to the restarted client -----

  ghost predicate Decodes(tools: Tools) { forall m: Manifest :: tools.decode(tools.encode(m)) == Some(m) }

  function SiteFor(home: Path, report: Report): Site { Site(home, report.targetHome, report.planId) }

  /** The report can be scheduled, its staged databases are intact, the database
      directory holds no user rows, and no backup has the plan's name. */
  predicate Ready(tools: Tools, files: Files, dirs: set<Path>, home: Path, report: Report, pid: string) {
    var s := SiteFor(home, report);
    && Schedulable(files, dirs, home, report, pid)
    && (forall k <- ListedKinds(report.items) :: tools.intact(files[Staged(s, FileName(k))]))
    && TargetEmpty(tools, files, s) && BackupHome(s) !in dirs && BackupHome(s) !in files
  }

  /** Paths other than the two of the manifest hold what they held. */
  ghost predicate OnlyManifest(before: Files, now: Files, home: Path, pid: string) {
    forall p :: p != ManifestPath(home) && p != TemporaryPath(home, pid) ==> At(now, p) == At(before, p)
  }

  lemma NotTheManifest(s: Site, name: string, pid: string)
    ensures Live(s, name) != ManifestPath(s.home) && Live(s, name) != TemporaryPath(s.home, pid)
    ensures BackupHome(s) != ManifestPath(s.home) && BackupHome(s) != TemporaryPath(s.home, pid)
    ensures BackupHome(s) !in Prefixes(s.home + ["import"])
  {
    var n := |s.home|;
    assert "import" != DB && "import" != BACKUPS;
    assert Live(s, name)[n] == DB && BackupHome(s)[n] == BACKUPS;
    assert ManifestPath(s.home)[n] == "import" && TemporaryPath(s.home, pid)[n] == "import";
    forall i | 0 <= i <= n + 1 ensures (s.home + ["import"])[..i] != BackupHome(s) {
      assert |(s.home + ["import"])[..i]| == i;
    }
  }

  /** Scheduling changes nothing that makes the database directory empty. */
  lemma StillEmpty(tools: Tools, before: Files, now: Files, s: Site, pid: string)
    requires OnlyManifest(before, now, s.home, pid) && TargetEmpty(tools, before, s)
    ensures TargetEmpty(tools, now, s)
  {
    forall k | Live(s, FileName(k)) in now ensures tools.userData(now[Live(s, FileName(k))]) == Some(false) {
      NotTheManifest(s, FileName(k), pid);
      assert At(now, Live(s, FileName(k))) == At(before, Live(s, FileName(k)));
    }
  }

  lemma StillIntact(tools: Tools, before: Files, now: Files, s: Site, kinds: seq<Kind>, pid: string)
    requires OnlyManifest(before, now, s.home, pid) && ValidSite(s)
    requires forall k <- kinds :: Staged(s, FileName(k)) in before && tools.intact(before[Staged(s, FileName(k))])
    ensures forall k <- kinds :: Staged(s, FileName(k)) in now && tools.intact(now[Staged(s, FileName(k))])
  {
    forall k <- kinds ensures Staged(s, FileName(k)) in now && tools.intact(now[Staged(s, FileName(k))]) {
      assert At(now, Staged(s, FileName(k))) == At(before, Staged(s, FileName(k)));
    }
  }

  /** What a ready report schedules is still admissible at the restart. */
  lemma ReadyIsAdmissible(tools: Tools, before: Files, now: Files, dirs: set<Path>, dirs': set<Path>, home: Path,
                          report: Report, m: Manifest, pid: string)
    requires Decodes(tools) && Ready(tools, before, dirs, home, report, pid)
    requires OnlyManifest(before, now, home, pid) && dirs <= dirs' <= dirs + Prefixes(home + ["import"])
    requires At(now, ManifestPath(home)) == Some(tools.encode(m))
    requires m.version == MANIFEST_VERSION && SiteOf(home, m) == SiteFor(home, report)
    requires KindsOf(m.databases) == ListedKinds(report.items)
    requires forall i :: 0 <= i < |m.databases| ==> Describes(tools, now, SiteOf(home, m), m.databases[i])
    ensures PendingManifest(tools, now, home) == Some(m) && Admissible(tools, now, dirs', home, m)
  {
    var s := SiteFor(home, report);
    StillEmpty(tools, before, now, s, pid);
    StillIntact(tools, before, now, s, ListedKinds(report.items), pid);
    NotTheManifest(s, "", pid);
    assert At(now, BackupHome(s)) == At(before, BackupHome(s));
    forall i | 0 <= i < |m.databases| ensures tools.intact(now[Staged(s, FileName(m.databases[i].kind))]) {
      assert m.databases[i].kind == KindsOf(m.databases)[i];
    }
  }

  /** Each listed database has its staged content, and each of its old components is
      in the backup. */
  ghost predicate Delivered(s: Site, before: Files, now: Files, kinds: seq<Kind>) {
    forall k <- kinds :: DatabaseDelivered(s, before, now, k)
  }

  ghost predicate DatabaseDelivered(s: Site, before: Files, now: Files, k: Kind) {
    && Staged(s, FileName(k)) in before && At(now, Live(s, FileName(k))) == At(before, Staged(s, FileName(k)))
    && forall i :: 0 <= i < 3 ==> At(now, Backup(s, Component(k, i))) == At(before, Live(s, Component(k, i)))
  }

  lemma SwappedIsDelivered(s: Site, before: Files, now: Files, final: Files, kinds: seq<Kind>, k: Kind)
    requires ValidSite(s) && FreshBackup(s, before) && k in kinds && Staged(s, FileName(k)) in before
    requires Shape(s, before, now, Planned(s, before, kinds))
    requires final == Without(now - {ManifestPath(s.home)}, s.staging)
    ensures DatabaseDelivered(s, before, final, k)
  {
    SwapStays(s, before, now, final, kinds, k);
  }

  /** Schedules a report and restarts the client, which activates what is pending. If
      nothing fails, a ready report is imported exactly if it copies no kind twice. */
  method ImportAndRestart(disk: Disk, tools: Tools, home: Path, report: Report, pid: string)
    returns (scheduled: Result, outcome: Option<Outcome>)
    requires disk.ParentsExist() && Decodes(tools)
    modifies disk
    ensures Ready(tools, old(disk.files), old(disk.dirs), home, report, pid) && disk.faults == old(disk.faults) ==>
              && scheduled.Scheduled?
              && outcome == Some(if OneItemPerKind(report.items) then Activated else RolledBack)
    ensures Ready(tools, old(disk.files), old(disk.dirs), home, report, pid) && disk.faults == old(disk.faults) &&
            OneItemPerKind(report.items) ==>
              Delivered(SiteFor(home, report), old(disk.files), disk.files, ListedKinds(report.items))
  {
    ghost var before, dirs, faults := disk.files, disk.dirs, disk.faults;
    ghost var ready := Ready(tools, before, dirs, home, report, pid);
    scheduled := Schedule(disk, tools, home, report, pid);
    outcome := None;
    if ManifestPath(home) !in disk.files { return; }
    ghost var files := disk.files;
    if ready && disk.faults == faults {
      ReadyIsAdmissible(tools, before, files, dirs, disk.dirs, home, report, scheduled.manifest, pid);
      ListedKindsProper(report.items);
      NoBackupYet(SiteFor(home, report), files, disk.dirs);
    }
    ghost var swapped, forward, g, h, stuck;
    var r;
    r, swapped, forward, g, h, stuck := Activate(disk, tools, home);
    outcome := Some(r);
    if ready && disk.faults == faults && OneItemPerKind(report.items) {
      ReadyIsDelivered(tools, before, files, dirs, swapped, disk.files, home, report, pid);
    }
  }

  lemma ReadyIsDelivered(tools: Tools, before: Files, files: Files, dirs: set<Path>, swapped: Files, final: Files,
                         home: Path, report: Report, pid: string)
    requires Ready(tools, before, dirs, home, report, pid) && OnlyManifest(before, files, home, pid)
    requires var s := SiteFor(home, report);
             && FreshBackup(s, files)
             && Shape(s, files, swapped, Planned(s, files, ListedKinds(report.items)))
             && final == Without(swapped - {ManifestPath(home)}, s.staging)
    ensures Delivered(SiteFor(home, report), before, final, ListedKinds(report.items))
  {
    var s, kinds := SiteFor(home, report), ListedKinds(report.items);
    StillIntact(tools, before, files, s, kinds, pid);
    forall k <- kinds ensures DatabaseDelivered(s, before, final, k) {
      SwappedIsDelivered(s, files, swapped, final, kinds, k);
      assert At(files, Staged(s, FileName(k))) == At(before, Staged(s, FileName(k)));
      forall i | 0 <= i < 3 ensures At(files, Live(s, Component(k, i))) == At(before, Live(s, Component(k, i))) {
        NotTheManifest(s, Component(k, i), pid);
      }
    }
  }
}
