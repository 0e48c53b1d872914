/** The orphan sweep as the collector runs it: directory by directory, with the
    shared arch=any directory last. */
module OrphanSweep {
  import opened Collections
  import opened Packages
  import opened Repositories

  /** One listed object; an unknown modification time is None. */
  datatype FileInfo = FileInfo(name: string, lastModified: Option<int>)

  datatype Orphan = Orphan(arch: string, name: string, age: int)

  /** What one directory's listing yields: unreferenced package artifacts of a
      known age of at least `olderThan`. */
  predicate IsOrphan(info: FileInfo, referenced: set<string>, isArtifact: string -> bool, now: int, olderThan: int) {
    info.name !in referenced && isArtifact(info.name) && info.lastModified.Some? && now - info.lastModified.value >= olderThan
  }

  function OrphansOf(dir: string, infos: seq<FileInfo>, referenced: set<string>, isArtifact: string -> bool,
                     now: int, olderThan: int): seq<Orphan> {
    if infos == [] then []
    else
      var last := infos[|infos| - 1];
      var front := OrphansOf(dir, infos[..|infos| - 1], referenced, isArtifact, now, olderThan);
      if IsOrphan(last, referenced, isArtifact, now, olderThan)
      then front + [Orphan(dir, last.name, now - last.lastModified.value)] else front
  }

  /** Some database points to this object. */
  ghost predicate Referenced(dbs: Databases, key: Key) {
    exists arch, name :: arch in dbs && name in dbs[arch] && KeyOf(arch, dbs[arch][name]) == key
  }

  /** Every object of `dir` that a database points to is among `referenced`. */
  ghost predicate CoversDir(dbs: Databases, dir: string, referenced: set<string>) {
    forall arch, name | arch in dbs && name in dbs[arch] && KeyOf(arch, dbs[arch][name]).dir == dir ::
      dbs[arch][name].file in referenced
  }

  function FilesOf(db: Database): set<string> {
    set name | name in db :: db[name].file
  }

  function AnyFilesOf(db: Database): set<string> {
    set name | name in db && db[name].arch == ANY :: db[name].file
  }

  /** Only unreferenced objects listed as old went away. */
  ghost predicate OnlyOrphansGone(dbs: Databases, before: Objects, after: Objects, orphans: seq<Orphan>) {
    && (forall key | key in after :: key in before && after[key] == before[key])
    && forall key | key in before && key !in after ::
         !Referenced(dbs, key) && exists o :: o in orphans && o.arch == key.dir && o.name == key.file
  }

  lemma GoneTogether(dbs: Databases, a: Objects, b: Objects, c: Objects, first: seq<Orphan>, second: seq<Orphan>)
    requires OnlyOrphansGone(dbs, a, b, first) && OnlyOrphansGone(dbs, b, c, second)
    ensures OnlyOrphansGone(dbs, a, c, first + second)
  {
  }

  lemma {:induction false} OrphansExactly(dir: string, infos: seq<FileInfo>, referenced: set<string>,
                                          isArtifact: string -> bool, now: int, olderThan: int, o: Orphan)
    ensures o in OrphansOf(dir, infos, referenced, isArtifact, now, olderThan) <==>
      o.arch == dir && exists info ::
          info in infos && info.name == o.name
          && o.name !in referenced && isArtifact(o.name)
          && info.lastModified.Some? && o.age == now - info.lastModified.value >= olderThan
  {
    if infos != [] {
      var front, last := infos[..|infos| - 1], infos[|infos| - 1];
      assert infos == front + [last];
      OrphansExactly(dir, front, referenced, isArtifact, now, olderThan, o);
    }
  }

  /** One directory of the sweep. With `works`, every deletion that is tried gets through. */
  method ReconcileDir(repo: Repository, dir: string, infos: seq<FileInfo>, referenced: set<string>,
                      isArtifact: string -> bool, now: int, olderThan: int, dryRun: bool, works: bool)
    returns (orphans: seq<Orphan>)
    requires repo.Valid() && CoversDir(repo.dbs, dir, referenced)
    modifies repo`objects
    ensures repo.Valid() && (dryRun ==> repo.objects == old(repo.objects))
    ensures orphans == OrphansOf(dir, infos, referenced, isArtifact, now, olderThan)
    ensures forall o :: o in orphans <==>
      o.arch == dir && exists info ::
          info in infos && info.name == o.name
          && o.name !in referenced && isArtifact(o.name)
          && info.lastModified.Some? && o.age == now - info.lastModified.value >= olderThan
    ensures OnlyOrphansGone(repo.dbs, old(repo.objects), repo.objects, orphans)
    ensures works && !dryRun ==> forall o | o in orphans :: Key(o.arch, o.name) !in repo.objects
  {
    hide Integral;
    orphans := [];
    for k := 0 to |infos|
      invariant repo.Valid() && (dryRun ==> repo.objects == old(repo.objects))
      invariant orphans == OrphansOf(dir, infos[..k], referenced, isArtifact, now, olderThan)
      invariant OnlyOrphansGone(repo.dbs, old(repo.objects), repo.objects, orphans)
      invariant works && !dryRun ==> forall o | o in orphans :: Key(o.arch, o.name) !in repo.objects
    {
      assert infos[..k + 1][..k] == infos[..k];
      var info := infos[k];
      if IsOrphan(info, referenced, isArtifact, now, olderThan) {
        var found := Orphan(dir, info.name, now - info.lastModified.value);
        ghost var before := repo.objects;
        if !dryRun {
          var _ := repo.DeleteFile(Key(dir, info.name), works);
        }
        GoneOne(repo.dbs, dir, referenced, before, repo.objects, found);
        GoneTogether(repo.dbs, old(repo.objects), before, repo.objects, orphans, [found]);
        orphans := orphans + [found];
      }
    }
    assert infos[..|infos|] == infos;
    forall o {
      OrphansExactly(dir, infos, referenced, isArtifact, now, olderThan, o);
    }
  }

  lemma GoneOne(dbs: Databases, dir: string, referenced: set<string>, before: Objects, after: Objects, o: Orphan)
    requires CoversDir(dbs, dir, referenced) && o.arch == dir && o.name !in referenced
    requires after == before || after == before - {Key(dir, o.name)}
    ensures OnlyOrphansGone(dbs, before, after, [o])
  {
    assert o in [o];
  }

  /** No entry that belongs into `dir` names this file. */
  ghost predicate Unlisted(dbs: Databases, dir: string, file: string) {
    if dir == ANY
    then forall a, name | a in dbs && name in dbs[a] && dbs[a][name].arch == ANY :: dbs[a][name].file != file
    else forall name | name in Entries(dbs, dir) :: Entries(dbs, dir)[name].file != file
  }

  /** A listed artifact that no entry names, of a known and sufficient age. */
  ghost predicate Overdue(dbs: Databases, listing: map<string, seq<FileInfo>>, isArtifact: string -> bool,
                          now: int, olderThan: int, o: Orphan) {
    Unlisted(dbs, o.arch, o.name) && isArtifact(o.name)
    && exists info ::
        info in Listed(listing, o.arch) && info.name == o.name
        && info.lastModified.Some? && o.age == now - info.lastModified.value >= olderThan
  }

  function Listed(listing: map<string, seq<FileInfo>>, dir: string): seq<FileInfo> {
    if dir in listing then listing[dir] else []
  }

  /** The shared files of all architectures together. */
  function AnyFilesOfAll(dbs: Databases, arches: seq<string>): set<string> {
    if arches == [] then {}
    else AnyFilesOfAll(dbs, arches[..|arches| - 1]) + AnyFilesOf(Entries(dbs, arches[|arches| - 1]))
  }

  lemma {:induction false} AnyFilesOfEach(dbs: Databases, arches: seq<string>, a: string)
    requires a in arches
    ensures AnyFilesOf(Entries(dbs, a)) <= AnyFilesOfAll(dbs, arches)
  {
    if a != arches[|arches| - 1] {
      AnyFilesOfEach(dbs, arches[..|arches| - 1], a);
    }
  }

  /** One architecture of the sweep: what it finds, and what it may have deleted. */
  method SweepArch(repo: Repository, arch: string, listing: map<string, seq<FileInfo>>, isArtifact: string -> bool,
                   now: int, olderThan: int, dryRun: bool, works: bool) returns (found: seq<Orphan>)
    requires repo.Valid() && Concrete(arch)
    modifies repo`objects
    ensures repo.Valid() && (dryRun ==> repo.objects == old(repo.objects))
    ensures OnlyOrphansGone(repo.dbs, old(repo.objects), repo.objects, found)
    ensures forall o :: o in found <==> o.arch == arch && Overdue(repo.dbs, listing, isArtifact, now, olderThan, o)
    ensures works && !dryRun ==> forall o | o in found :: Key(o.arch, o.name) !in repo.objects
  {
    ArchIsCovered(repo.dbs, arch);
    hide OrphansOf, OnlyOrphansGone, CoversDir;
    found := ReconcileDir(repo, arch, Listed(listing, arch), FilesOf(Entries(repo.dbs, arch)), isArtifact,
                          now, olderThan, dryRun, works);
    hide Listed, Entries;
  }

  /**
   * Report or delete what no database points to. Reading a database may fail, which ends the
   * sweep: the caller then gets no report, although what is already gone was an orphan all
   * the same. With `works`, nothing fails.
   */
  method ReconcileOrphans(repo: Repository, arches: seq<string>, listing: map<string, seq<FileInfo>>,
                          isArtifact: string -> bool, now: int, olderThan: int, dryRun: bool, works: bool)
    returns (ok: bool, report: seq<Orphan>)
    requires repo.Valid()
    requires (forall a | a in repo.dbs :: a in arches) && forall a | a in arches :: Concrete(a)
    modifies repo`objects
    ensures repo.Valid() && (dryRun ==> repo.objects == old(repo.objects))
    ensures forall key | key in repo.objects :: key in old(repo.objects) && repo.objects[key] == old(repo.objects)[key]
    ensures forall key | key in old(repo.objects) && key !in repo.objects ::
      !Referenced(repo.dbs, key) && exists info ::
          info in Listed(listing, key.dir) && info.name == key.file
          && Unlisted(repo.dbs, key.dir, key.file) && isArtifact(key.file)
          && info.lastModified.Some? && now - info.lastModified.value >= olderThan
    ensures ok ==> forall o :: o in report <==>
      (o.arch == ANY || o.arch in arches) && exists info ::
          info in Listed(listing, o.arch) && info.name == o.name
          && Unlisted(repo.dbs, o.arch, o.name) && isArtifact(o.name)
          && info.lastModified.Some? && o.age == now - info.lastModified.value >= olderThan
    ensures ok && works && !dryRun ==> forall o | o in report :: Key(o.arch, o.name) !in repo.objects
    ensures !ok ==> report == []
    ensures olderThan < 0 ==> repo.objects == old(repo.objects)
    ensures if works then ok <==> olderThan >= 0 else ok ==> olderThan >= 0
  {
    ok, report := false, [];
    if olderThan < 0 {
      return;
    }
    var orphans: seq<Orphan> := [];
    var anyReferenced := {};
    for k := 0 to |arches|
      invariant repo.Valid() && (dryRun ==> repo.objects == old(repo.objects))
      invariant OnlyOrphansGone(repo.dbs, old(repo.objects), repo.objects, orphans)
      invariant anyReferenced == AnyFilesOfAll(repo.dbs, arches[..k])
      invariant forall o :: o in orphans <==>
        o.arch in arches[..k] && Overdue(repo.dbs, listing, isArtifact, now, olderThan, o)
      invariant works && !dryRun ==> forall o | o in orphans :: Key(o.arch, o.name) !in repo.objects
    {
      hide OnlyOrphansGone, Integral, AnyFilesOf, Overdue;
      var a := arches[k];
      assert arches[..k + 1] == arches[..k] + [a] && arches[..k + 1][..k] == arches[..k];
      var readable := *;
      if !readable && !works {
        hide Listed, Unlisted, Referenced;
        GoneAreOverdue(repo.dbs, old(repo.objects), repo.objects, listing, isArtifact, now, olderThan, orphans);
        return;
      }
      anyReferenced := anyReferenced + AnyFilesOf(Entries(repo.dbs, a));
      ghost var before := repo.objects;
      var found := SweepArch(repo, a, listing, isArtifact, now, olderThan, dryRun, works);
      GoneTogether(repo.dbs, old(repo.objects), before, repo.objects, orphans, found);
      GoneMonotone(repo.dbs, before, repo.objects, found);
      orphans := orphans + found;
    }
    assert arches[..|arches|] == arches;
    hide OrphansOf, OnlyOrphansGone, Overdue, Listed, Unlisted, Referenced;
    AnyFilesAreUnlisted(repo.dbs, repo.objects, arches);
    hide Integral, CoversDir, AnyFilesOfAll;
    GoneAreOverdue(repo.dbs, old(repo.objects), repo.objects, listing, isArtifact, now, olderThan, orphans);
    var listed := *;
    if !listed && !works {
      return;
    }
    ghost var before := repo.objects;
    var found := ReconcileDir(repo, ANY, Listed(listing, ANY), anyReferenced, isArtifact, now, olderThan, dryRun, works);
    GoneTogether(repo.dbs, old(repo.objects), before, repo.objects, orphans, found);
    GoneMonotone(repo.dbs, before, repo.objects, found);
    report := orphans + found;
    ok := true;
    SharedAreOverdue(repo.dbs, listing, isArtifact, now, olderThan, anyReferenced, found);
    GoneAreOverdue(repo.dbs, old(repo.objects), repo.objects, listing, isArtifact, now, olderThan, report);
    ReportIsOverdue(repo.dbs, arches, listing, isArtifact, now, olderThan, orphans, found);
  }

  /** A sweep of the shared directory finds what is overdue there. */
  lemma SharedAreOverdue(dbs: Databases, listing: map<string, seq<FileInfo>>, isArtifact: string -> bool,
                         now: int, olderThan: int, referenced: set<string>, found: seq<Orphan>)
    requires forall file :: file in referenced <==> !Unlisted(dbs, ANY, file)
    requires forall o :: o in found <==>
      o.arch == ANY && exists info ::
          info in Listed(listing, ANY) && info.name == o.name
          && o.name !in referenced && isArtifact(o.name)
          && info.lastModified.Some? && o.age == now - info.lastModified.value >= olderThan
    ensures forall o :: o in found <==> o.arch == ANY && Overdue(dbs, listing, isArtifact, now, olderThan, o)
  {
    hide Unlisted, Listed;
  }

  lemma ReportIsOverdue(dbs: Databases, arches: seq<string>, listing: map<string, seq<FileInfo>>,
                        isArtifact: string -> bool, now: int, olderThan: int, own: seq<Orphan>, shared: seq<Orphan>)
    requires forall o :: o in own <==> o.arch in arches && Overdue(dbs, listing, isArtifact, now, olderThan, o)
    requires forall o :: o in shared <==> o.arch == ANY && Overdue(dbs, listing, isArtifact, now, olderThan, o)
    ensures forall o :: o in own + shared <==>
      (o.arch == ANY || o.arch in arches) && exists info ::
          info in Listed(listing, o.arch) && info.name == o.name
          && Unlisted(dbs, o.arch, o.name) && isArtifact(o.name)
          && info.lastModified.Some? && o.age == now - info.lastModified.value >= olderThan
  {
    hide Unlisted, Listed;
  }

  lemma GoneAreOverdue(dbs: Databases, before: Objects, after: Objects, listing: map<string, seq<FileInfo>>,
                       isArtifact: string -> bool, now: int, olderThan: int, orphans: seq<Orphan>)
    requires OnlyOrphansGone(dbs, before, after, orphans)
    requires forall o | o in orphans :: Overdue(dbs, listing, isArtifact, now, olderThan, o)
    ensures forall key | key in after :: key in before && after[key] == before[key]
    ensures forall key | key in before && key !in after ::
      !Referenced(dbs, key) && exists info ::
          info in Listed(listing, key.dir) && info.name == key.file
          && Unlisted(dbs, key.dir, key.file) && isArtifact(key.file)
          && info.lastModified.Some? && now - info.lastModified.value >= olderThan
  {
    hide Unlisted, Listed, Referenced;
  }

  lemma GoneMonotone(dbs: Databases, before: Objects, after: Objects, orphans: seq<Orphan>)
    requires OnlyOrphansGone(dbs, before, after, orphans)
    ensures forall key | key in after :: key in before
  {
  }

  /** The files collected from all architectures are the shared files of all databases. */
  lemma AnyFilesAreUnlisted(dbs: Databases, objects: Objects, arches: seq<string>)
    requires Integral(dbs, objects) && forall a | a in dbs :: a in arches
    ensures CoversDir(dbs, ANY, AnyFilesOfAll(dbs, arches))
    ensures forall file :: file in AnyFilesOfAll(dbs, arches) <==> !Unlisted(dbs, ANY, file)
  {
    forall a | a in arches ensures AnyFilesOf(Entries(dbs, a)) <= AnyFilesOfAll(dbs, arches) {
      AnyFilesOfEach(dbs, arches, a);
    }
    AnyIsCovered(dbs, objects, arches, AnyFilesOfAll(dbs, arches));
    forall file ensures file in AnyFilesOfAll(dbs, arches) <==> !Unlisted(dbs, ANY, file) {
      AnyFileHasEntry(dbs, arches, file);
      if !Unlisted(dbs, ANY, file) {
        var a, name :| a in dbs && name in dbs[a] && dbs[a][name].arch == ANY && dbs[a][name].file == file;
        assert file in AnyFilesOf(Entries(dbs, a));
      }
    }
  }

  lemma {:induction false} AnyFileHasEntry(dbs: Databases, arches: seq<string>, file: string)
    ensures file in AnyFilesOfAll(dbs, arches) ==> !Unlisted(dbs, ANY, file)
  {
    if arches != [] {
      AnyFileHasEntry(dbs, arches[..|arches| - 1], file);
    }
  }

  lemma ArchIsCovered(dbs: Databases, arch: string)
    requires Concrete(arch)
    ensures CoversDir(dbs, arch, FilesOf(Entries(dbs, arch)))
  {
    forall a, name | a in dbs && name in dbs[a] && KeyOf(a, dbs[a][name]).dir == arch
      ensures dbs[a][name].file in FilesOf(Entries(dbs, arch))
    {
      assert a == arch;
    }
  }

  lemma AnyIsCovered(dbs: Databases, objects: Objects, arches: seq<string>, anyReferenced: set<string>)
    requires Integral(dbs, objects) && forall a | a in dbs :: a in arches
    requires forall a | a in arches :: AnyFilesOf(Entries(dbs, a)) <= anyReferenced
    ensures CoversDir(dbs, ANY, anyReferenced)
  {
    forall a, name | a in dbs && name in dbs[a] && KeyOf(a, dbs[a][name]).dir == ANY
      ensures dbs[a][name].file in anyReferenced
    {
      assert Concrete(a) && dbs[a][name].arch == ANY;
      assert dbs[a][name].file in AnyFilesOf(Entries(dbs, a));
    }
  }
}
