/** Publishing a batch: gate, store, commit architecture by architecture, and
    compensate when a later step fails. */
module UploadPublications {
  import opened Collections
  import opened Packages
  import opened PublishGate
  import opened Repositories
  import opened UploadPlan

  class UploadPublication {
    const repo: Repository
    const declared: seq<string>
    /** Whether every call of the compensation gets through. */
    const reliableRollback: bool

    var uploads: seq<Upload>
    var byArch: map<string, seq<nat>>
    var archOrder: seq<string>
    var oldArtifacts: map<Key, Blob>
    var committedArches: seq<string>

    constructor (repo: Repository, declared: seq<string>, reliableRollback: bool)
      ensures this.repo == repo && this.declared == declared && this.reliableRollback == reliableRollback
      ensures uploads == [] && archOrder == [] && byArch == map[] && oldArtifacts == map[] && committedArches == []
    {
      this.repo, this.declared, this.reliableRollback := repo, declared, reliableRollback;
      uploads, byArch, archOrder, oldArtifacts, committedArches := [], map[], [], map[], [];
    }

    // -------------------------------------------------------------- resolution

    /** Gate one package against every database it targets. With `works`, no read fails. */
    method ResolveUpload(file: Blob, arches: seq<string>, seen: set<(string, string)>, works: bool)
      returns (ok: bool, u: Upload, seen': set<(string, string)>)
      requires Distinct(arches)
      ensures works ==> (ok <==> forall a | a in arches :: Admits(seen, repo.dbs, a, file.pkg))
      ensures ok ==> GatedFor(file, arches, repo.dbs, seen, u, seen')
    {
      seen', ok := seen, false;
      u := Upload(file, [], map[]);
      NothingGated(file, repo.dbs, seen);
      assert arches[..0] == [];
      for k := 0 to |arches|
        invariant GatedFor(file, arches[..k], repo.dbs, seen, u, seen')
      {
        hide GatedFor, Admits;
        var arch := arches[k];
        var key, answered := (arch, file.pkg.name), *;
        if key in seen' {
          RepeatedIsRefused(file, arches, k, repo.dbs, seen, u, seen');
          return;
        }
        if !answered && !works {
          return;
        }
        GateOne(file, arches, k, repo.dbs, seen, u, seen');
        seen' := seen' + {key};
        var db := Entries(repo.dbs, arch);
        match GateUpload(file.pkg, db)
        case Refuse => return;
        case AlreadyPublished =>
        case Publish(_) => u := WithTarget(u, arch, db);
      }
      assert arches[..|arches|] == arches;
      ok := true;
    }

    /** Plan the whole batch, or nothing. With `works`, exactly an unacceptable batch is refused. */
    method ResolveState(files: seq<Blob>, stored: seq<string>, works: bool) returns (ok: bool)
      modifies this`uploads
      ensures ok ==> Planned(files, ConcreteArches(declared, stored), repo.dbs, uploads)
      ensures ok ==> forall i, arch | 0 <= i < |files| :: arch in uploads[i].dbArches <==>
        (if files[i].pkg.arch == ANY then (arch in declared || arch in stored) && arch != "" && arch != ANY
         else arch == files[i].pkg.arch)
        && !SameVersion(Entries(repo.dbs, arch), files[i].pkg)
      ensures !ok ==> uploads == old(uploads)
      ensures if works then ok <==> Acceptable(files, declared, stored, repo.dbs)
              else ok ==> Acceptable(files, declared, stored, repo.dbs)
    {
      PlannableExactly(files, declared, stored, repo.dbs);
      if !(forall i | 0 <= i < |files| :: files[i].pkg.arch != "" && ArchAccepted(declared, stored, files[i].pkg.arch)) {
        return false;
      }
      hide ArchAccepted;
      var arches := ConcreteArches(declared, stored);
      AddArchesExact([], declared);
      AddArchesExact(AddArches([], declared), stored);
      hide AddArches, ConcreteArches;
      var resolved: seq<Upload>, seen: set<(string, string)> := [], {};
      NothingPlanned(files, arches, repo.dbs);
      for i := 0 to |files|
        invariant |resolved| == i && Progress(files, arches, repo.dbs, resolved, seen, i)
        invariant uploads == old(uploads)
      {
        hide Progress, Admits, Planned, Acceptable, Plannable, Targets;
        var targets := TargetArches(arches, files[i].pkg.arch);
        if |targets| == 0 {
          NoTargetIsUnplannable(files, declared, stored, repo.dbs, i);
          return false;
        }
        var fits, u, seen' := ResolveUpload(files[i], targets, seen, works);
        if !fits {
          if works {
            RefusalIsUnplannable(files, declared, stored, repo.dbs, resolved, seen, i);
          }
          return false;
        }
        ProgressOneMore(files, arches, repo.dbs, resolved, seen, i, u, seen');
        resolved, seen := resolved + [u], seen';
      }
      uploads := resolved;
      ok := true;
      ProgressIsPlannable(files, declared, stored, repo.dbs, resolved, seen);
      PlannedTargets(files, declared, stored, repo.dbs, uploads);
      hide Acceptable, Plannable, Planned, Progress;
    }

    // ----------------------------------------------------------------- batches

    ghost predicate Batched()
      reads this
    {
      && Ordered(archOrder, byArch)
      && (forall arch | arch in byArch :: Concrete(arch) && byArch[arch] == Batch(uploads, arch))
      && forall i, arch | 0 <= i < |uploads| && arch in uploads[i].dbArches :: arch in byArch
    }

    /** `byArch` holds the first `n` uploads. */
    ghost predicate BatchedUpTo(n: nat)
      reads this
      requires n <= |uploads|
    {
      && Ordered(archOrder, byArch)
      && archOrder == FirstUse(uploads, n)
      && (forall arch | arch in byArch :: Concrete(arch))
      && forall arch :: Held(byArch, arch) == Indices(uploads, arch, n)
    }

    method AddToBatch(arch: string, n: nat)
      requires Ordered(archOrder, byArch)
      modifies this`byArch, this`archOrder
      ensures Ordered(archOrder, byArch)
      ensures forall a :: Held(byArch, a) == if a == arch then Held(old(byArch), a) + [n] else Held(old(byArch), a)
      ensures forall a :: a in byArch <==> a == arch || a in old(byArch)
      ensures archOrder == WithNew(old(archOrder), [arch])
    {
      assert [arch][..0] == [];
      if arch !in byArch {
        archOrder := archOrder + [arch];
        byArch := byArch[arch := []];
      }
      byArch := byArch[arch := byArch[arch] + [n]];
    }

    method AddToBatches(n: nat)
      requires n < |uploads| && Distinct(uploads[n].dbArches) && BatchedUpTo(n)
      requires forall arch | arch in uploads[n].dbArches :: Concrete(arch)
      modifies this`byArch, this`archOrder
      ensures BatchedUpTo(n + 1)
    {
      hide Concrete, Ordered, Indices, Held;
      var arches := uploads[n].dbArches;
      ghost var before, order := byArch, archOrder;
      assert Added(before, byArch, arches[..0], n);
      for k := 0 to |arches|
        invariant Ordered(archOrder, byArch)
        invariant forall a | a in byArch :: Concrete(a)
        invariant Added(before, byArch, arches[..k], n) && archOrder == WithNew(order, arches[..k])
      {
        var arch := arches[k];
        ghost var soFar := byArch;
        AddToBatch(arch, n);
        AddedOneMore(before, soFar, byArch, arches, k, n);
        NewOneMore(order, arches, k);
        hide Added;
      }
      assert arches[..|arches|] == arches;
      forall arch ensures Held(byArch, arch) == Indices(uploads, arch, n + 1) {
        IndicesStep(uploads, arch, n);
      }
    }

    method BuildArchBatches()
      requires forall i | 0 <= i < |uploads| ::
        Distinct(uploads[i].dbArches) && forall arch | arch in uploads[i].dbArches :: Concrete(arch)
      modifies this`byArch, this`archOrder
      ensures Batched() && archOrder == FirstUse(uploads, |uploads|)
    {
      byArch, archOrder := map[], [];
      for n := 0 to |uploads|
        invariant BatchedUpTo(n)
      {
        AddToBatches(n);
      }
      hide Indices;
      forall i, arch | 0 <= i < |uploads| && arch in uploads[i].dbArches ensures arch in byArch {
        assert i in Indices(uploads, arch, |uploads|) && Held(byArch, arch) == Indices(uploads, arch, |uploads|);
      }
      forall arch | arch in byArch ensures byArch[arch] == Batch(uploads, arch) {
        assert Held(byArch, arch) == Indices(uploads, arch, |uploads|);
      }
    }

    // ----------------------------------------------------- objects: capture, store

    /** The bytes of the package upload `u` replaces in `arch` are at hand. */
    predicate CapturedIn(u: Upload, arch: string)
      reads this
      requires arch in u.oldByArch
    {
      var key := KeyOf(arch, u.oldByArch[arch]);
      key in oldArtifacts && oldArtifacts[key].pkg == u.oldByArch[arch]
    }

    ghost predicate Captured(n: nat)
      reads this
      requires n <= |uploads|
    {
      forall i, arch | 0 <= i < n && arch in uploads[i].oldByArch :: CapturedIn(uploads[i], arch)
    }

    method CaptureUpload(u: Upload, works: bool) returns (ok: bool)
      requires forall arch | arch in u.oldByArch :: Present(repo.objects, arch, u.oldByArch[arch])
      requires forall key | key in oldArtifacts :: key in repo.objects && oldArtifacts[key] == repo.objects[key]
      modifies this`oldArtifacts
      ensures forall key | key in oldArtifacts :: key in repo.objects && oldArtifacts[key] == repo.objects[key]
      ensures forall key | key in old(oldArtifacts) :: key in oldArtifacts
      ensures ok ==> forall arch | arch in u.oldByArch :: CapturedIn(u, arch)
      ensures works ==> ok
    {
      ok := false;
      var todo := u.oldByArch.Keys;
      while todo != {}
        invariant todo <= u.oldByArch.Keys
        invariant forall key | key in oldArtifacts :: key in repo.objects && oldArtifacts[key] == repo.objects[key]
        invariant forall key | key in old(oldArtifacts) :: key in oldArtifacts
        invariant forall arch | arch in u.oldByArch && arch !in todo :: KeyOf(arch, u.oldByArch[arch]) in oldArtifacts
      {
        var arch :| arch in todo;
        var key := KeyOf(arch, u.oldByArch[arch]);
        if key !in oldArtifacts {
          var spooled := repo.Spool(key, works);
          if spooled.None? {
            return;
          }
          oldArtifacts := oldArtifacts[key := spooled.value];
        }
        todo := todo - {arch};
      }
      ok := true;
    }

    method Capture(works: bool) returns (ok: bool)
      requires repo.Valid() && Resolved(repo.dbs, uploads) && oldArtifacts == map[]
      modifies this`oldArtifacts
      ensures ok ==> Captured(|uploads|)
      ensures works ==> ok
      ensures StillStored(repo.objects)
    {
      for i := 0 to |uploads|
        invariant forall j, arch | 0 <= j < i && arch in uploads[j].oldByArch ::
          KeyOf(arch, uploads[j].oldByArch[arch]) in oldArtifacts
        invariant forall key | key in oldArtifacts :: key in repo.objects && oldArtifacts[key] == repo.objects[key]
      {
        ReplacedArePresent(repo.dbs, repo.objects, uploads, i);
        var captured := CaptureUpload(uploads[i], works);
        if !captured {
          return false;
        }
      }
      forall i, arch | 0 <= i < |uploads| && arch in uploads[i].oldByArch ensures CapturedIn(uploads[i], arch) {
        ReplacedArePresent(repo.dbs, repo.objects, uploads, i);
      }
      ok := true;
    }

    /** Objects only ever appear: none is lost or replaced. */
    twostate predicate ObjectsGrow()
      reads repo
    {
      forall key | key in old(repo.objects) :: key in repo.objects && repo.objects[key] == old(repo.objects)[key]
    }

    /** With `works`, exactly a key with other bytes is refused. */
    method StoreObjects(works: bool) returns (ok: bool)
      requires repo.Valid()
      modifies repo`objects
      ensures repo.Valid() && ObjectsGrow()
      ensures ok ==> AllStored(repo.objects, uploads)
      ensures works && Unopposed(old(repo.objects), uploads) ==> ok
    {
      ghost var before := repo.objects;
      for i := 0 to |uploads|
        invariant repo.Valid() && ObjectsGrow()
        invariant AllStored(repo.objects, uploads[..i])
        invariant FromUploads(before, repo.objects, uploads, i)
      {
        hide FromUploads, Unopposed, Integral;
        ghost var objectsWere := repo.objects;
        UnopposedFits(before, repo.objects, uploads, i);
        FromOneMore(before, repo.objects, uploads, i);
        var u := uploads[i];
        if u.dbArches != [] {
          var result := repo.StoreImmutable(KeyOf(u.blob.pkg.arch, u.blob.pkg), u.blob, works);
          if result != Stored {
            return false;
          }
        }
        hide AllStored, KeyOf;
        assert AllStored(repo.objects, uploads[..i + 1]) by {
          AllStoredOneMore(objectsWere, repo.objects, uploads, i);
        }
      }
      ok := true;
    }

    // ------------------------------------------------------- commit and rollback

    /** Only committed architectures differ from the snapshot, and those only by
        uploads of the batch. */
    ghost predicate Partial(snapshot: Databases)
      reads this, repo
    {
      forall arch :: PartialIn(snapshot, repo.dbs, uploads, committedArches, arch)
    }

    method CommitArch(arch: string, works: bool, ghost snapshot: Databases) returns (result: TxResult)
      requires repo.Valid() && Concrete(arch) && Resolved(snapshot, uploads) && AllStored(repo.objects, uploads)
      requires Partial(snapshot) && arch !in committedArches
      modifies repo`dbs
      ensures repo.Valid()
      ensures forall a :: PartialIn(snapshot, repo.dbs, uploads, committedArches + [arch], a)
      ensures forall a | a != arch :: Entries(repo.dbs, a) == Entries(old(repo.dbs), a)
      ensures result.Failure? && !result.marked ==> repo.dbs == old(repo.dbs)
      ensures result.Committed? ==>
        Entries(repo.dbs, arch) == Upsert(Entries(snapshot, arch), CommitItems(uploads, arch))
      ensures works ==> result.Committed?
    {
      hide Upsert, CommitItems, Integral, AllStored, Resolved, Effect, Between;
      CommitIsBacked(repo.objects, snapshot, uploads, arch);
      assert PartialIn(snapshot, repo.dbs, uploads, committedArches, arch);
      CommitIsAccepted(snapshot, Found(repo.dbs, arch), uploads, arch);
      hide PartialIn;
      ghost var before := repo.dbs;
      result := repo.MutateDB(arch, AddBatch(CommitItems(uploads, arch)), works);
      CommitOutcome(snapshot, before, repo.dbs, uploads, committedArches, arch);
    }

    method CommitDatabases(works: bool, ghost snapshot: Databases) returns (ok: bool)
      requires repo.Valid() && Batched() && Resolved(snapshot, uploads) && AllStored(repo.objects, uploads)
      requires repo.dbs == snapshot && committedArches == []
      modifies repo`dbs, this`committedArches
      ensures repo.Valid() && Partial(snapshot) && Distinct(committedArches)
      ensures forall arch | arch in committedArches :: arch in archOrder
      ensures ok ==> forall arch | arch in archOrder :: Entries(repo.dbs, arch)
                       == Upsert(Entries(snapshot, arch), CommitItems(uploads, arch))
      ensures ok ==> committedArches == archOrder
      ensures works ==> ok
    {
      hide Upsert, CommitItems, Integral, AllStored, Resolved, Between;
      for k := 0 to |archOrder|
        invariant repo.Valid() && Partial(snapshot)
        invariant committedArches == archOrder[..k]
        invariant forall arch | arch in archOrder[..k] :: Entries(repo.dbs, arch)
                    == Upsert(Entries(snapshot, arch), CommitItems(uploads, arch))
      {
        hide PartialIn;
        var arch := archOrder[k];
        assert archOrder[..k + 1] == archOrder[..k] + [arch] && arch !in archOrder[..k];
        var result := CommitArch(arch, works, snapshot);
        if result != Committed {
          if result.marked {
            committedArches := committedArches + [arch];
          }
          return false;
        }
        committedArches := committedArches + [arch];
      }
      assert archOrder[..|archOrder|] == archOrder;
      ok := true;
    }

    /** Compensate one upload in one architecture. Retries, lost replies and conflicts are the
        transaction's business: once it commits or is refused, the entry is restored. */
    method RestorePackage(arch: string, u: Upload) returns (result: TxResult)
      requires repo.Valid() && Concrete(arch) && FitsBack(u, arch) && (arch in u.oldByArch ==> CapturedIn(u, arch))
      modifies repo
      ensures repo.Valid() && ObjectsGrow()
      ensures forall other | other != arch :: Entries(repo.dbs, other) == Entries(old(repo.dbs), other)
      ensures Settled(result) ==> Entries(repo.dbs, arch) == Restored(u, arch, Found(old(repo.dbs), arch))
      ensures reliableRollback && StillStored(old(repo.objects)) ==> Settled(result)
    {
      hide Effect, Integral;
      if arch in u.oldByArch {
        var key := KeyOf(arch, u.oldByArch[arch]);
        var stored := repo.StoreImmutable(key, oldArtifacts[key], reliableRollback);
        if stored != Stored {
          return Failure(false, false);
        }
      }
      result := repo.MutateDB(arch, RestoreMutation(u, arch), reliableRollback);
    }

    /** Every captured object is still the one in the repository. */
    ghost predicate StillStored(objects: Objects)
      reads this
    {
      forall key | key in oldArtifacts :: key in objects && objects[key] == oldArtifacts[key]
    }

    method RestoreArch(arch: string, ghost snapshot: Databases) returns (settled: bool)
      requires repo.Valid() && Captured(|uploads|) && Resolved(snapshot, uploads) && Batched() && arch in byArch
      requires ReplacedFit(uploads)
      requires StillStored(repo.objects)
      requires Between(Entries(snapshot, arch), Entries(repo.dbs, arch), uploads, Batch(uploads, arch), 0)
      modifies repo
      ensures repo.Valid() && ObjectsGrow()
      ensures forall other | other != arch :: Entries(repo.dbs, other) == Entries(old(repo.dbs), other)
      ensures settled ==> Entries(repo.dbs, arch) == Entries(snapshot, arch)
      ensures reliableRollback ==> settled
    {
      settled := true;
      var batch := byArch[arch];
      for k := 0 to |batch|
        invariant repo.Valid() && ObjectsGrow() && StillStored(repo.objects)
        invariant forall other | other != arch :: Entries(repo.dbs, other) == Entries(old(repo.dbs), other)
        invariant settled ==> Between(Entries(snapshot, arch), Entries(repo.dbs, arch), uploads, batch, k)
        invariant reliableRollback ==> settled
      {
        hide Indices, Between, Integral, Restored, PassedGate;
        var u := uploads[batch[k]];
        assert Fits(u, arch, snapshot) && FitsBack(u, arch);
        if settled {
          RestoreStep(Entries(snapshot, arch), Found(repo.dbs, arch), uploads, arch, k);
        }
        var result := RestorePackage(arch, u);
        settled := settled && Settled(result);
      }
      if settled {
        NothingBetween(Entries(snapshot, arch), Entries(repo.dbs, arch), uploads, batch);
      }
    }

    /** Compensate in reverse commit order; `settled` tells whether every compensation committed or was refused. */
    method Rollback(ghost snapshot: Databases) returns (settled: bool)
      requires repo.Valid() && Captured(|uploads|) && Resolved(snapshot, uploads) && Batched()
      requires ReplacedFit(uploads)
      requires StillStored(repo.objects) && Partial(snapshot)
      requires Distinct(committedArches) && forall arch | arch in committedArches :: arch in byArch
      modifies repo
      ensures repo.Valid() && ObjectsGrow()
      ensures settled ==> forall arch :: Entries(repo.dbs, arch) == Entries(snapshot, arch)
      ensures reliableRollback ==> settled
    {
      settled := true;
      var k := |committedArches|;
      while k > 0
        invariant 0 <= k <= |committedArches|
        invariant repo.Valid() && ObjectsGrow() && StillStored(repo.objects)
        invariant forall arch | arch !in committedArches || arch in committedArches[..k] ::
          PartialIn(snapshot, repo.dbs, uploads, committedArches, arch)
        invariant reliableRollback ==> settled
        invariant settled ==> forall arch | arch in committedArches[k..] :: Entries(repo.dbs, arch) == Entries(snapshot, arch)
      {
        hide Between, Integral, Captured, Resolved, Batched, StillStored;
        k := k - 1;
        var arch := committedArches[k];
        assert arch in committedArches[..k + 1];
        assert PartialIn(snapshot, repo.dbs, uploads, committedArches, arch);
        assert committedArches[k..] == [arch] + committedArches[k + 1..];
        assert arch !in committedArches[..k] && arch !in committedArches[k + 1..];
        var restored := RestoreArch(arch, snapshot);
        settled := settled && restored;
      }
      forall arch ensures settled ==> Entries(repo.dbs, arch) == Entries(snapshot, arch) {
        assert committedArches[0..] == committedArches;
        assert arch !in committedArches ==> PartialIn(snapshot, repo.dbs, uploads, committedArches, arch);
      }
    }

    // ------------------------------------------------------------ the whole saga

    /** UploadFiles, from the repository state that holds once the publication
        lease is taken. Success registers every package of the batch, or finds its
        version registered, in every target; failure is undone once every compensation
        has committed or was refused. With `works`, an acceptable batch whose keys hold no
        other bytes does not fail. */
    method Run(files: seq<Blob>, stored: seq<string>, works: bool) returns (ok: bool, settled: bool)
      requires repo.Valid()
      requires oldArtifacts == map[] && committedArches == []
      modifies this, repo
      ensures repo.Valid() && ObjectsGrow()
      ensures !ok && settled ==> forall arch :: Entries(repo.dbs, arch) == Entries(old(repo.dbs), arch)
      ensures reliableRollback ==> settled
      ensures ok ==> forall file, arch | file in files
        && (if file.pkg.arch == ANY then (arch in declared || arch in stored) && arch != "" && arch != ANY
            else arch == file.pkg.arch) ::
        Registered(Entries(old(repo.dbs), arch), Entries(repo.dbs, arch), file.pkg)
      ensures ok ==> forall arch, name | (forall file | file in files ::
          file.pkg.name != name || (file.pkg.arch != arch && (file.pkg.arch != ANY || (arch !in declared && arch !in stored)))) ::
        AgreeAt(Entries(old(repo.dbs), arch), Entries(repo.dbs, arch), name)
      ensures ok ==> forall file, arch | file in files && Targets(declared, stored, file.pkg, arch)
        && !SameVersion(Entries(old(repo.dbs), arch), file.pkg) ::
        KeyOf(file.pkg.arch, file.pkg) in repo.objects && repo.objects[KeyOf(file.pkg.arch, file.pkg)] == file
      ensures ok ==> Acceptable(files, declared, stored, old(repo.dbs))
      ensures works && Acceptable(files, declared, stored, old(repo.dbs)) && Storable(files, old(repo.objects)) ==> ok
    {
      hide Resolved, Integral, Indices, Covers, NoDuplicates, ConcreteArches, TargetArches, Acceptable, Storable, Unopposed,
        AllStored;
      settled := true;
      ghost var objects := repo.objects;
      ok := ResolveState(files, stored, works);
      if !ok {
        return;
      }
      DistinctTargets(repo.dbs, uploads);
      BuildArchBatches();
      ok := Capture(works);
      if ok {
        ReplacedNames(repo.dbs, repo.objects, uploads);
        StorableIsUnopposed(files, objects, uploads);
        ok, settled := StoreAndCommit(works);
        if ok {
          PublishedEverything(old(repo.dbs), repo.dbs, uploads, files, declared, stored, archOrder);
          NewAreStored(old(repo.dbs), repo.objects, uploads, files, declared, stored);
        }
      }
    }

    /** The phases after which failure needs compensation. */
    method StoreAndCommit(works: bool) returns (ok: bool, settled: bool)
      requires repo.Valid() && Batched() && Resolved(repo.dbs, uploads) && Captured(|uploads|) && StillStored(repo.objects)
      requires ReplacedFit(uploads)
      requires committedArches == []
      modifies this`committedArches, repo
      ensures repo.Valid() && ObjectsGrow()
      ensures !ok && settled ==> forall arch :: Entries(repo.dbs, arch) == Entries(old(repo.dbs), arch)
      ensures reliableRollback ==> settled
      ensures ok ==> AllStored(repo.objects, uploads)
      ensures ok ==> forall arch :: CommittedIn(old(repo.dbs), repo.dbs, uploads, archOrder, arch)
      ensures works && Unopposed(old(repo.objects), uploads) ==> ok
    {
      hide Resolved, Integral, Indices, Upsert, CommitItems, Between, Unopposed;
      ghost var snapshot := repo.dbs;
      settled := true;
      ok := StoreObjects(works);
      assert Partial(snapshot);
      if ok {
        ok := CommitDatabases(works, snapshot);
        if ok && !works {
          ok := *;  // the package-name index may refuse
        }
      }
      if !ok {
        settled := Rollback(snapshot);
      } else {
        forall arch ensures CommittedIn(snapshot, repo.dbs, uploads, archOrder, arch) {
          assert PartialIn(snapshot, repo.dbs, uploads, committedArches, arch);
        }
      }
    }
  }

  /** A compensating transaction that committed, or that a guard refused, possibly after retries. */
  predicate Settled(result: TxResult) {
    result.Committed? || result.changed
  }

  /** The very version of `p` is already registered. */
  predicate SameVersion(db: Database, p: Package) {
    p.name in db && VerCmp(p.version, db[p.name].version) == 0
  }

  predicate Older(db: Database, p: Package) {
    p.name in db && VerCmp(p.version, db[p.name].version) < 0
  }

  /** No earlier package of the batch has this entry, and the database none newer. */
  predicate Admits(seen: set<(string, string)>, dbs: Databases, arch: string, p: Package) {
    (arch, p.name) !in seen && !Older(Entries(dbs, arch), p)
  }

  /** The batches an upload must not refuse: every package names an accepted architecture, has a
      target, is nowhere older than what is published, and shares no entry with another. */
  ghost predicate Acceptable(files: seq<Blob>, declared: seq<string>, stored: seq<string>, dbs: Databases) {
    && (forall i | 0 <= i < |files| :: Served(declared, stored, files[i].pkg.arch))
    && (forall i | 0 <= i < |files| :: HasTarget(declared, stored, files[i].pkg))
    && (forall i, a | 0 <= i < |files| && Targets(declared, stored, files[i].pkg, a) ::
          !Older(Entries(dbs, a), files[i].pkg))
    && forall i, j, a | 0 <= i < j < |files|
         && Targets(declared, stored, files[i].pkg, a) && Targets(declared, stored, files[j].pkg, a) ::
         files[i].pkg.name != files[j].pkg.name
  }

  ghost predicate HasTarget(declared: seq<string>, stored: seq<string>, p: Package) {
    exists a :: Targets(declared, stored, p, a)
  }

  /** An architecture a package may name: any, a declared or stored one, or all while there is none. */
  predicate Served(declared: seq<string>, stored: seq<string>, arch: string) {
    arch != "" && (arch == ANY || arch in declared || arch in stored || (declared == [] && stored == []))
  }

  /** The same in terms of the lists the upload works with. */
  ghost predicate Plannable(files: seq<Blob>, declared: seq<string>, stored: seq<string>, dbs: Databases) {
    var arches := ConcreteArches(declared, stored);
    && (forall i | 0 <= i < |files| :: files[i].pkg.arch != "" && ArchAccepted(declared, stored, files[i].pkg.arch))
    && (forall i | 0 <= i < |files| :: NowhereOlder(files[i].pkg, arches, dbs))
    && NoDuplicates(files, arches)
  }

  lemma PlannableExactly(files: seq<Blob>, declared: seq<string>, stored: seq<string>, dbs: Databases)
    ensures Plannable(files, declared, stored, dbs) <==> Acceptable(files, declared, stored, dbs)
  {
    forall i | 0 <= i < |files|
      ensures NowhereOlder(files[i].pkg, ConcreteArches(declared, stored), dbs) <==>
        HasTarget(declared, stored, files[i].pkg)
        && forall a | Targets(declared, stored, files[i].pkg, a) :: !Older(Entries(dbs, a), files[i].pkg)
    {
      NowhereOlderExactly(files[i].pkg, declared, stored, dbs);
    }
    NoDuplicatesExactly(files, declared, stored);
    hide ConcreteArches, Targets, HasTarget, Older, NowhereOlder, NoDuplicates;
  }

  lemma NowhereOlderExactly(p: Package, declared: seq<string>, stored: seq<string>, dbs: Databases)
    ensures NowhereOlder(p, ConcreteArches(declared, stored), dbs) <==>
      HasTarget(declared, stored, p) && forall a | Targets(declared, stored, p, a) :: !Older(Entries(dbs, a), p)
  {
    var targets := TargetArches(ConcreteArches(declared, stored), p.arch);
    hide TargetArches, ConcreteArches, Targets, Older;
    TargetsExactly(declared, stored, p);
    if targets != [] {
      assert targets[0] in targets;
    }
  }

  lemma NoDuplicatesExactly(files: seq<Blob>, declared: seq<string>, stored: seq<string>)
    ensures NoDuplicates(files, ConcreteArches(declared, stored)) <==>
      forall i, j, a | 0 <= i < j < |files|
        && Targets(declared, stored, files[i].pkg, a) && Targets(declared, stored, files[j].pkg, a) ::
        files[i].pkg.name != files[j].pkg.name
  {
    hide TargetArches, ConcreteArches, Targets;
    forall i | 0 <= i < |files|
      ensures forall a :: a in TargetArches(ConcreteArches(declared, stored), files[i].pkg.arch) <==>
        Targets(declared, stored, files[i].pkg, a)
    {
      TargetsExactly(declared, stored, files[i].pkg);
    }
  }

  predicate NowhereOlder(p: Package, arches: seq<string>, dbs: Databases) {
    var targets := TargetArches(arches, p.arch);
    targets != [] && forall a | a in targets :: !Older(Entries(dbs, a), p)
  }

  /** One plan for each file, covering all its targets, and no two share an entry. */
  ghost predicate Planned(files: seq<Blob>, arches: seq<string>, dbs: Databases, uploads: seq<Upload>) {
    && Resolved(dbs, uploads) && |uploads| == |files|
    && (forall i | 0 <= i < |files| :: uploads[i].blob == files[i])
    && (forall i | 0 <= i < |files| :: Covers(uploads[i], dbs, TargetArches(arches, files[i].pkg.arch)))
    && NoDuplicates(files, arches)
  }

  lemma PlannedTargets(files: seq<Blob>, declared: seq<string>, stored: seq<string>, dbs: Databases, uploads: seq<Upload>)
    requires Planned(files, ConcreteArches(declared, stored), dbs, uploads)
    ensures forall i, arch | 0 <= i < |files| :: arch in uploads[i].dbArches <==>
      Targets(declared, stored, files[i].pkg, arch) && !SameVersion(Entries(dbs, arch), files[i].pkg)
  {
    hide TargetArches, ConcreteArches, Targets;
    forall i, arch | 0 <= i < |files|
      ensures arch in uploads[i].dbArches <==>
        Targets(declared, stored, files[i].pkg, arch) && !SameVersion(Entries(dbs, arch), files[i].pkg)
    {
      TargetsExactly(declared, stored, files[i].pkg);
      assert arch in uploads[i].dbArches ==> Fits(uploads[i], arch, dbs);
    }
  }

  /** An earlier package of the batch has the entry. */
  ghost predicate Taken(files: seq<Blob>, arches: seq<string>, n: nat, key: (string, string))
    requires n <= |files|
  {
    exists j :: 0 <= j < n && key.0 in TargetArches(arches, files[j].pkg.arch) && key.1 == files[j].pkg.name
  }

  ghost predicate Progress(files: seq<Blob>, arches: seq<string>, dbs: Databases,
                           resolved: seq<Upload>, seen: set<(string, string)>, n: nat) {
    && n <= |files| && Planned(files[..n], arches, dbs, resolved)
    && (forall key :: key in seen <==> Taken(files, arches, n, key))
    && forall i | 0 <= i < n :: NowhereOlder(files[i].pkg, arches, dbs)
  }

  lemma NothingPlanned(files: seq<Blob>, arches: seq<string>, dbs: Databases)
    ensures Progress(files, arches, dbs, [], {}, 0)
  {
  }

  lemma NoTargetIsUnplannable(files: seq<Blob>, declared: seq<string>, stored: seq<string>, dbs: Databases, i: nat)
    requires i < |files| && TargetArches(ConcreteArches(declared, stored), files[i].pkg.arch) == []
    ensures !Plannable(files, declared, stored, dbs)
  {
    assert !NowhereOlder(files[i].pkg, ConcreteArches(declared, stored), dbs);
    hide ConcreteArches, ArchAccepted, NoDuplicates;
  }

  lemma RefusalIsUnplannable(files: seq<Blob>, declared: seq<string>, stored: seq<string>, dbs: Databases,
                              resolved: seq<Upload>, seen: set<(string, string)>, i: nat)
    requires i < |files| && Progress(files, ConcreteArches(declared, stored), dbs, resolved, seen, i)
    requires !forall a | a in TargetArches(ConcreteArches(declared, stored), files[i].pkg.arch) ::
      Admits(seen, dbs, a, files[i].pkg)
    ensures !Plannable(files, declared, stored, dbs)
  {
    var arches := ConcreteArches(declared, stored);
    hide ConcreteArches, ArchAccepted, TargetArches, Planned;
    var a :| a in TargetArches(arches, files[i].pkg.arch) && !Admits(seen, dbs, a, files[i].pkg);
    if (a, files[i].pkg.name) in seen {
      assert Taken(files, arches, i, (a, files[i].pkg.name));
      var j :| 0 <= j < i && a in TargetArches(arches, files[j].pkg.arch) && files[i].pkg.name == files[j].pkg.name;
      assert !NoDuplicates(files, arches);
    } else {
      assert !NowhereOlder(files[i].pkg, arches, dbs);
    }
  }

  lemma ProgressIsPlannable(files: seq<Blob>, declared: seq<string>, stored: seq<string>, dbs: Databases,
                             resolved: seq<Upload>, seen: set<(string, string)>)
    requires Progress(files, ConcreteArches(declared, stored), dbs, resolved, seen, |files|)
    requires forall i | 0 <= i < |files| :: files[i].pkg.arch != "" && ArchAccepted(declared, stored, files[i].pkg.arch)
    ensures Planned(files, ConcreteArches(declared, stored), dbs, resolved) && Plannable(files, declared, stored, dbs)
  {
    assert files[..|files|] == files;
    hide ConcreteArches, ArchAccepted, NowhereOlder, Resolved, Covers, Taken;
  }

  lemma ProgressOneMore(files: seq<Blob>, arches: seq<string>, dbs: Databases, resolved: seq<Upload>,
                        seen: set<(string, string)>, i: nat, u: Upload, seen': set<(string, string)>)
    requires i < |files| && Progress(files, arches, dbs, resolved, seen, i)
    requires forall a | a in arches :: Concrete(a)
    requires files[i].pkg.arch != "" && TargetArches(arches, files[i].pkg.arch) != []
    requires GatedFor(files[i], TargetArches(arches, files[i].pkg.arch), dbs, seen, u, seen')
    ensures Progress(files, arches, dbs, resolved + [u], seen', i + 1)
  {
    PlanOneMore(files, arches, dbs, resolved, seen, i, u, seen');
    GatedIsNowhereOlder(files[i], arches, dbs, seen, u, seen');
    SeenGrows(files, arches, seen, i, seen');
    hide Planned, TargetArches, Taken, NowhereOlder;
  }

  lemma GatedIsNowhereOlder(file: Blob, arches: seq<string>, dbs: Databases,
                            seen: set<(string, string)>, u: Upload, seen': set<(string, string)>)
    requires TargetArches(arches, file.pkg.arch) != []
    requires GatedFor(file, TargetArches(arches, file.pkg.arch), dbs, seen, u, seen')
    ensures NowhereOlder(file.pkg, arches, dbs)
    ensures seen' == seen + (set a | a in TargetArches(arches, file.pkg.arch) :: (a, file.pkg.name))
  {
  }

  lemma PlanOneMore(files: seq<Blob>, arches: seq<string>, dbs: Databases, resolved: seq<Upload>,
                    seen: set<(string, string)>, i: nat, u: Upload, seen': set<(string, string)>)
    requires i < |files| && Progress(files, arches, dbs, resolved, seen, i)
    requires (forall a | a in arches :: Concrete(a)) && files[i].pkg.arch != ""
    requires GatedFor(files[i], TargetArches(arches, files[i].pkg.arch), dbs, seen, u, seen')
    ensures Planned(files[..i + 1], arches, dbs, resolved + [u])
  {
    EarlierAreSeen(files, arches, dbs, resolved, seen, i);
    TargetsAreSeen(files, arches, seen, i);
    assert forall a | a in u.dbArches :: Fits(u, a, dbs) && (a, u.blob.pkg.name) !in seen;
    assert Distinct(u.dbArches) && forall a | a in u.oldByArch :: a in u.dbArches;
    ResolvedOneMore(dbs, resolved, u, seen);
    NoDuplicatesOneMore(files, arches, i, seen);
    var more := files[..i + 1];
    assert forall j | 0 <= j < i :: more[j] == files[..i][j];
    assert Covers(u, dbs, TargetArches(arches, files[i].pkg.arch));
    hide Resolved, NoDuplicates, TargetArches, Covers, Taken, NowhereOlder;
  }

  lemma TargetsAreSeen(files: seq<Blob>, arches: seq<string>, seen: set<(string, string)>, i: nat)
    requires i <= |files| && forall key :: key in seen <==> Taken(files, arches, i, key)
    ensures forall j, a | 0 <= j < i && a in TargetArches(arches, files[j].pkg.arch) :: (a, files[j].pkg.name) in seen
  {
    hide TargetArches;
    forall j, a | 0 <= j < i && a in TargetArches(arches, files[j].pkg.arch) ensures (a, files[j].pkg.name) in seen {
      assert Taken(files, arches, i, (a, files[j].pkg.name));
    }
  }

  // ------------------------------------------------------------- gating one package

  /** The package has been gated for the architectures in `targets`. */
  ghost predicate GatedFor(file: Blob, targets: seq<string>, dbs: Databases,
                           seen: set<(string, string)>, u: Upload, seen': set<(string, string)>) {
    && u.blob == file && Distinct(u.dbArches) && (forall a | a in u.oldByArch :: a in u.dbArches)
    && (forall a | a in u.dbArches :: a in targets && PassedGate(u, a, Entries(dbs, a)))
    && (forall a | a in targets && a !in u.dbArches :: SameVersion(Entries(dbs, a), file.pkg))
    && (forall a | a in targets :: Admits(seen, dbs, a, file.pkg))
    && seen' == seen + (set a | a in targets :: (a, file.pkg.name))
  }

  function WithTarget(u: Upload, arch: string, db: Database): Upload {
    var name := u.blob.pkg.name;
    Upload(u.blob, u.dbArches + [arch], if name in db then u.oldByArch[arch := db[name]] else u.oldByArch)
  }

  lemma NothingGated(file: Blob, dbs: Databases, seen: set<(string, string)>)
    ensures GatedFor(file, [], dbs, seen, Upload(file, [], map[]), seen)
  {
  }

  lemma RepeatedIsRefused(file: Blob, arches: seq<string>, k: nat, dbs: Databases,
                          seen: set<(string, string)>, u: Upload, seen': set<(string, string)>)
    requires k < |arches| && Distinct(arches) && GatedFor(file, arches[..k], dbs, seen, u, seen')
    requires (arches[k], file.pkg.name) in seen'
    ensures !Admits(seen, dbs, arches[k], file.pkg)
  {
    assert arches[k] !in arches[..k];
  }

  lemma GateOne(file: Blob, arches: seq<string>, k: nat, dbs: Databases,
                seen: set<(string, string)>, u: Upload, seen': set<(string, string)>)
    requires k < |arches| && Distinct(arches) && GatedFor(file, arches[..k], dbs, seen, u, seen')
    requires (arches[k], file.pkg.name) !in seen'
    ensures var arch, db := arches[k], Entries(dbs, arches[k]);
      var seen'' := seen' + {(arch, file.pkg.name)};
      match GateUpload(file.pkg, db)
      case Refuse => !Admits(seen, dbs, arch, file.pkg)
      case AlreadyPublished => GatedFor(file, arches[..k + 1], dbs, seen, u, seen'')
      case Publish(_) => GatedFor(file, arches[..k + 1], dbs, seen, WithTarget(u, arch, db), seen'')
  {
    var arch := arches[k];
    assert arch !in arches[..k] && arches[..k + 1] == arches[..k] + [arch];
    SeenWithOneMore(file, arches, k, seen);
    assert (arch, file.pkg.name) !in seen;
  }

  lemma SeenWithOneMore(file: Blob, arches: seq<string>, k: nat, seen: set<(string, string)>)
    requires k < |arches|
    ensures seen + (set a | a in arches[..k + 1] :: (a, file.pkg.name))
         == seen + (set a | a in arches[..k] :: (a, file.pkg.name)) + {(arches[k], file.pkg.name)}
  {
    assert arches[..k + 1] == arches[..k] + [arches[k]];
  }

  lemma EarlierAreSeen(files: seq<Blob>, arches: seq<string>, dbs: Databases, resolved: seq<Upload>,
                       seen: set<(string, string)>, i: nat)
    requires Progress(files, arches, dbs, resolved, seen, i)
    ensures forall j, a | 0 <= j < |resolved| && a in resolved[j].dbArches :: (a, resolved[j].blob.pkg.name) in seen
  {
    hide TargetArches, Resolved, NowhereOlder, NoDuplicates;
    forall j, a | 0 <= j < |resolved| && a in resolved[j].dbArches ensures (a, resolved[j].blob.pkg.name) in seen {
      assert files[..i][j] == files[j] && Covers(resolved[j], dbs, TargetArches(arches, files[..i][j].pkg.arch));
      assert Taken(files, arches, i, (a, files[j].pkg.name));
    }
  }

  lemma SeenGrows(files: seq<Blob>, arches: seq<string>, seen: set<(string, string)>, i: nat, seen': set<(string, string)>)
    requires i < |files| && forall key :: key in seen <==> Taken(files, arches, i, key)
    requires seen' == seen + (set a | a in TargetArches(arches, files[i].pkg.arch) :: (a, files[i].pkg.name))
    ensures forall key :: key in seen' <==> Taken(files, arches, i + 1, key)
  {
    hide TargetArches;
    forall key ensures key in seen' <==> Taken(files, arches, i + 1, key) {
      if key in seen' && key !in seen {
        assert key.0 in TargetArches(arches, files[i].pkg.arch) && key.1 == files[i].pkg.name;
      }
      if Taken(files, arches, i + 1, key) && !Taken(files, arches, i, key) {
        assert key == (key.0, files[i].pkg.name);
      }
    }
  }

  /** Every target either gets the upload or already has its version. */
  predicate Covers(u: Upload, dbs: Databases, targets: seq<string>) {
    && (forall a | a in u.dbArches :: a in targets)
    && forall a | a in targets && a !in u.dbArches :: SameVersion(Entries(dbs, a), u.blob.pkg)
  }

  /** `archOrder` lists the keys of `byArch`, each once. */
  ghost predicate Ordered(archOrder: seq<string>, byArch: map<string, seq<nat>>) {
    Distinct(archOrder) && forall arch :: arch in archOrder <==> arch in byArch
  }

  function Held(byArch: map<string, seq<nat>>, arch: string): seq<nat> {
    if arch in byArch then byArch[arch] else []
  }

  /** The order extended by the architectures it does not have yet. */
  function WithNew(order: seq<string>, arches: seq<string>): seq<string> {
    if arches == [] then order
    else
      var front, last := WithNew(order, arches[..|arches| - 1]), arches[|arches| - 1];
      if last in front then front else front + [last]
  }

  /** The architectures of the first `n` uploads in the order of their first use. */
  function FirstUse(uploads: seq<Upload>, n: nat): seq<string>
    requires n <= |uploads|
  {
    if n == 0 then [] else WithNew(FirstUse(uploads, n - 1), uploads[n - 1].dbArches)
  }

  lemma NewOneMore(order: seq<string>, arches: seq<string>, k: nat)
    requires k < |arches|
    ensures WithNew(order, arches[..k + 1]) == WithNew(WithNew(order, arches[..k]), [arches[k]])
  {
    assert arches[..k + 1][..k] == arches[..k];
    assert [arches[k]][..0] == [];
  }

  /** The upload `n` stands behind the batches of `targets`, and of no others. */
  ghost predicate Added(before: map<string, seq<nat>>, after: map<string, seq<nat>>, targets: seq<string>, n: nat) {
    forall a :: Held(after, a) == if a in targets then Held(before, a) + [n] else Held(before, a)
  }

  lemma AddedOneMore(before: map<string, seq<nat>>, soFar: map<string, seq<nat>>, after: map<string, seq<nat>>,
                     arches: seq<string>, k: nat, n: nat)
    requires k < |arches| && Distinct(arches) && Added(before, soFar, arches[..k], n)
    requires forall a :: Held(after, a) == if a == arches[k] then Held(soFar, a) + [n] else Held(soFar, a)
    ensures Added(before, after, arches[..k + 1], n)
  {
    hide Held;
    assert arches[k] !in arches[..k] && arches[..k + 1] == arches[..k] + [arches[k]];
  }

  /** Every upload that goes into some database has its object in place. */
  ghost predicate AllStored(objects: Objects, uploads: seq<Upload>) {
    forall i | 0 <= i < |uploads| && uploads[i].dbArches != [] ::
      var key := KeyOf(uploads[i].blob.pkg.arch, uploads[i].blob.pkg);
      key in objects && objects[key] == uploads[i].blob
  }

  /** No stored object, and no other package of the batch, has the key of one to be stored with other bytes. */
  ghost predicate Unopposed(objects: Objects, uploads: seq<Upload>) {
    && (forall i | 0 <= i < |uploads| && uploads[i].dbArches != [] ::
          var key := KeyOf(uploads[i].blob.pkg.arch, uploads[i].blob.pkg);
          key in objects ==> objects[key] == uploads[i].blob)
    && forall i, j | 0 <= i < j < |uploads|
         && KeyOf(uploads[i].blob.pkg.arch, uploads[i].blob.pkg) == KeyOf(uploads[j].blob.pkg.arch, uploads[j].blob.pkg) ::
         uploads[i].blob == uploads[j].blob
  }

  /** No object of another build is stored, or offered twice, under the key of a package of the batch. */
  ghost predicate Storable(files: seq<Blob>, objects: Objects) {
    && (forall file | file in files ::
          KeyOf(file.pkg.arch, file.pkg) in objects ==> objects[KeyOf(file.pkg.arch, file.pkg)] == file)
    && forall i, j | 0 <= i < j < |files| && KeyOf(files[i].pkg.arch, files[i].pkg) == KeyOf(files[j].pkg.arch, files[j].pkg) ::
         files[i] == files[j]
  }

  lemma StorableIsUnopposed(files: seq<Blob>, objects: Objects, uploads: seq<Upload>)
    requires |uploads| == |files| && forall i | 0 <= i < |files| :: uploads[i].blob == files[i]
    ensures Storable(files, objects) ==> Unopposed(objects, uploads)
  {
  }

  /** What is new was put there by the first `n` uploads. */
  ghost predicate FromUploads(before: Objects, objects: Objects, uploads: seq<Upload>, n: nat)
    requires n <= |uploads|
  {
    forall key | key in objects ::
      || (key in before && objects[key] == before[key])
      || exists j :: 0 <= j < n && key == KeyOf(uploads[j].blob.pkg.arch, uploads[j].blob.pkg) && objects[key] == uploads[j].blob
  }

  lemma AllStoredOneMore(before: Objects, objects: Objects, uploads: seq<Upload>, n: nat)
    requires n < |uploads| && AllStored(before, uploads[..n])
    requires forall key | key in before :: key in objects && objects[key] == before[key]
    requires uploads[n].dbArches != [] ==> AllStored(objects, [uploads[n]])
    ensures AllStored(objects, uploads[..n + 1])
  {
    assert uploads[..n + 1] == uploads[..n] + [uploads[n]];
    assert [uploads[n]][0] == uploads[n];
  }

  lemma FromOneMore(before: Objects, objects: Objects, uploads: seq<Upload>, n: nat)
    requires n < |uploads| && FromUploads(before, objects, uploads, n)
    ensures FromUploads(before, objects, uploads, n + 1)
    ensures var key := KeyOf(uploads[n].blob.pkg.arch, uploads[n].blob.pkg);
      FromUploads(before, objects[key := uploads[n].blob], uploads, n + 1)
  {
  }

  lemma UnopposedFits(before: Objects, objects: Objects, uploads: seq<Upload>, n: nat)
    requires n < |uploads| && FromUploads(before, objects, uploads, n)
    ensures var key := KeyOf(uploads[n].blob.pkg.arch, uploads[n].blob.pkg);
      Unopposed(before, uploads) && uploads[n].dbArches != [] && key in objects ==> objects[key] == uploads[n].blob
  {
  }

  ghost predicate PartialIn(snapshot: Databases, dbs: Databases, uploads: seq<Upload>, committed: seq<string>, arch: string) {
    if arch in committed
    then Between(Entries(snapshot, arch), Entries(dbs, arch), uploads, Batch(uploads, arch), 0)
    else Entries(dbs, arch) == Entries(snapshot, arch)
  }

  lemma CommitIsBacked(objects: Objects, snapshot: Databases, uploads: seq<Upload>, arch: string)
    requires AllStored(objects, uploads) && Resolved(snapshot, uploads)
    ensures Backed(objects, arch, AddBatch(CommitItems(uploads, arch)))
  {
    var batch, items := Batch(uploads, arch), CommitItems(uploads, arch);
    hide Indices;
    forall k | 0 <= k < |items| ensures Present(objects, arch, items[k].pkg) {
      var u := uploads[batch[k]];
      assert arch in u.dbArches && Fits(u, arch, snapshot);
      assert KeyOf(arch, u.blob.pkg) == KeyOf(u.blob.pkg.arch, u.blob.pkg);
    }
  }

  /** Over the snapshot the guards of a batch are met. */
  lemma CommitIsAccepted(snapshot: Databases, current: Option<Database>, uploads: seq<Upload>, arch: string)
    requires Resolved(snapshot, uploads) && OrEmpty(current) == Entries(snapshot, arch)
    ensures Effect(AddBatch(CommitItems(uploads, arch)), current).Some?
  {
    var batch, items := Batch(uploads, arch), CommitItems(uploads, arch);
    hide Indices, Upsert;
    forall k | 0 <= k < |items| ensures ExpectationHolds(Entries(snapshot, arch), items[k]) {
      assert items[k] == CommitItem(uploads[batch[k]], arch);
      assert Fits(uploads[batch[k]], arch, snapshot);
    }
  }

  /** Whatever the commit of one architecture reported, the damage is bounded. */
  lemma CommitOutcome(snapshot: Databases, before: Databases, dbs: Databases, uploads: seq<Upload>, committed: seq<string>, arch: string)
    requires forall a :: PartialIn(snapshot, before, uploads, committed, a)
    requires arch !in committed
    requires var goal := Effect(AddBatch(CommitItems(uploads, arch)), Found(before, arch));
      dbs == before || (goal.Some? && dbs == before[arch := goal.value])
    ensures forall a :: PartialIn(snapshot, dbs, uploads, committed + [arch], a)
    ensures dbs == before ==> forall a :: PartialIn(snapshot, dbs, uploads, committed, a)
    ensures dbs != before ==> Entries(dbs, arch) == Upsert(Entries(snapshot, arch), CommitItems(uploads, arch))
    ensures Effect(AddBatch(CommitItems(uploads, arch)), Found(before, arch)).Some? ==>
      Effect(AddBatch(CommitItems(uploads, arch)), Found(before, arch)).value
      == Upsert(Entries(snapshot, arch), CommitItems(uploads, arch))
  {
    hide Between, Upsert, Indices;
    assert PartialIn(snapshot, before, uploads, committed, arch);
    CommitIsBetween(Entries(snapshot, arch), uploads, arch);
    UnchangedIsBetween(Entries(snapshot, arch), uploads, arch);
    forall a ensures PartialIn(snapshot, dbs, uploads, committed + [arch], a) {
      assert PartialIn(snapshot, before, uploads, committed, a);
    }
  }

  lemma UnchangedIsBetween(snapshot: Database, uploads: seq<Upload>, arch: string)
    ensures Between(snapshot, snapshot, uploads, Batch(uploads, arch), 0)
  {
  }

  /** The package is registered now, unless its version already was. */
  predicate Registered(before: Database, after: Database, p: Package) {
    || (p.name in after && after[p.name] == p)
    || (SameVersion(before, p) && p.name in after && after[p.name] == before[p.name])
  }

  /** No target is asked to take two packages of one name. */
  ghost predicate NoDuplicates(files: seq<Blob>, arches: seq<string>) {
    forall i, j, a | 0 <= i < j < |files|
      && a in TargetArches(arches, files[i].pkg.arch) && a in TargetArches(arches, files[j].pkg.arch) ::
      files[i].pkg.name != files[j].pkg.name
  }

  lemma NoDuplicatesOneMore(files: seq<Blob>, arches: seq<string>, i: nat, seen: set<(string, string)>)
    requires i < |files| && NoDuplicates(files[..i], arches)
    requires forall j, a | 0 <= j < i && a in TargetArches(arches, files[j].pkg.arch) :: (a, files[j].pkg.name) in seen
    requires forall a | a in TargetArches(arches, files[i].pkg.arch) :: (a, files[i].pkg.name) !in seen
    ensures NoDuplicates(files[..i + 1], arches)
  {
    hide TargetArches;
    var more := files[..i + 1];
    forall j, k, a | 0 <= j < k < |more| && a in TargetArches(arches, more[j].pkg.arch) && a in TargetArches(arches, more[k].pkg.arch)
      ensures more[j].pkg.name != more[k].pkg.name
    {
      if k < i {
        assert files[..i][j] == more[j] && files[..i][k] == more[k];
      }
    }
  }

  ghost predicate CommittedIn(snapshot: Databases, dbs: Databases, uploads: seq<Upload>, order: seq<string>, arch: string) {
    Entries(dbs, arch)
    == if arch in order then Upsert(Entries(snapshot, arch), CommitItems(uploads, arch)) else Entries(snapshot, arch)
  }

  lemma DistinctTargets(dbs: Databases, uploads: seq<Upload>)
    requires Resolved(dbs, uploads)
    ensures forall i | 0 <= i < |uploads| ::
      Distinct(uploads[i].dbArches) && forall arch | arch in uploads[i].dbArches :: Concrete(arch)
  {
    forall i, arch | 0 <= i < |uploads| && arch in uploads[i].dbArches ensures Concrete(arch) {
      assert Fits(uploads[i], arch, dbs);
    }
  }

  /** The replaced package, if any, has the same name and belongs in `arch`. */
  predicate FitsBack(u: Upload, arch: string) {
    arch in u.oldByArch ==>
      && u.oldByArch[arch].name == u.blob.pkg.name
      && (u.oldByArch[arch].arch == ANY || u.oldByArch[arch].arch == arch)
  }

  ghost predicate ReplacedFit(uploads: seq<Upload>) {
    forall i, a | 0 <= i < |uploads| && a in uploads[i].oldByArch :: FitsBack(uploads[i], a)
  }

  lemma ReplacedNames(dbs: Databases, objects: Objects, uploads: seq<Upload>)
    requires Integral(dbs, objects) && Resolved(dbs, uploads)
    ensures ReplacedFit(uploads)
  {
    hide Resolved, Integral;
    forall i, a | 0 <= i < |uploads| && a in uploads[i].oldByArch ensures FitsBack(uploads[i], a) {
      ReplacedArePresent(dbs, objects, uploads, i);
    }
  }

  /** A committed batch registers each of its packages in the architecture. */
  lemma CommittedEntry(snapshot: Database, dbs: Databases, uploads: seq<Upload>, arch: string, i: nat)
    requires Resolved(dbs, uploads) && i < |uploads| && arch in uploads[i].dbArches
    ensures var after, p := Upsert(snapshot, CommitItems(uploads, arch)), uploads[i].blob.pkg;
      p.name in after && after[p.name] == p
  {
    var batch, items := Batch(uploads, arch), CommitItems(uploads, arch);
    hide Upsert, Indices;
    assert forall k | 0 <= k < |items| :: items[k].pkg == uploads[batch[k]].blob.pkg;
    UpsertEntry(snapshot, items, uploads[i].blob.pkg.name);
    var k :| 0 <= k < |batch| && batch[k] == i;
    assert items[k].pkg.name == uploads[i].blob.pkg.name;
  }

  /** It leaves every other name of the architecture as it was. */
  lemma CommittedElsewhere(snapshot: Database, uploads: seq<Upload>, arch: string, name: string)
    requires forall i | 0 <= i < |uploads| && arch in uploads[i].dbArches :: uploads[i].blob.pkg.name != name
    ensures AgreeAt(snapshot, Upsert(snapshot, CommitItems(uploads, arch)), name)
  {
    var batch, items := Batch(uploads, arch), CommitItems(uploads, arch);
    hide Upsert, Indices;
    assert forall k | 0 <= k < |items| :: items[k].pkg == uploads[batch[k]].blob.pkg;
    UpsertEntry(snapshot, items, name);
  }

  lemma PublishedEverything(snapshot: Databases, dbs: Databases, uploads: seq<Upload>, files: seq<Blob>,
                            declared: seq<string>, stored: seq<string>, order: seq<string>)
    requires Planned(files, ConcreteArches(declared, stored), snapshot, uploads)
    requires forall i, arch | 0 <= i < |uploads| && arch in uploads[i].dbArches :: arch in order
    requires forall arch :: CommittedIn(snapshot, dbs, uploads, order, arch)
    ensures forall file, arch | file in files && Targets(declared, stored, file.pkg, arch) ::
      Registered(Entries(snapshot, arch), Entries(dbs, arch), file.pkg)
    ensures forall arch, name | (forall file | file in files :: file.pkg.name != name || !Targets(declared, stored, file.pkg, arch)) ::
      AgreeAt(Entries(snapshot, arch), Entries(dbs, arch), name)
  {
    hide Upsert, CommitItems, TargetArches, ConcreteArches, Targets, Resolved, NoDuplicates;
    PlannedTargets(files, declared, stored, snapshot, uploads);
    forall i, arch | 0 <= i < |files| && Targets(declared, stored, files[i].pkg, arch)
      ensures Registered(Entries(snapshot, arch), Entries(dbs, arch), files[i].pkg)
    {
      TargetsExactly(declared, stored, files[i].pkg);
      PublishedOne(snapshot, dbs, uploads, files, ConcreteArches(declared, stored), order, i, arch);
    }
    forall arch, name | (forall file | file in files :: file.pkg.name != name || !Targets(declared, stored, file.pkg, arch))
      ensures AgreeAt(Entries(snapshot, arch), Entries(dbs, arch), name)
    {
      assert CommittedIn(snapshot, dbs, uploads, order, arch);
      assert forall i | 0 <= i < |uploads| :: files[i] in files;
      CommittedElsewhere(Entries(snapshot, arch), uploads, arch, name);
    }
  }

  /** What was not published before is stored now, byte for byte. */
  lemma NewAreStored(snapshot: Databases, objects: Objects, uploads: seq<Upload>, files: seq<Blob>,
                     declared: seq<string>, stored: seq<string>)
    requires Planned(files, ConcreteArches(declared, stored), snapshot, uploads) && AllStored(objects, uploads)
    ensures forall file, arch | file in files && Targets(declared, stored, file.pkg, arch)
      && !SameVersion(Entries(snapshot, arch), file.pkg) ::
      KeyOf(file.pkg.arch, file.pkg) in objects && objects[KeyOf(file.pkg.arch, file.pkg)] == file
  {
    PlannedTargets(files, declared, stored, snapshot, uploads);
    hide TargetArches, ConcreteArches, Targets, Resolved, NoDuplicates, Covers;
    forall file, arch | file in files && Targets(declared, stored, file.pkg, arch)
      && !SameVersion(Entries(snapshot, arch), file.pkg)
      ensures KeyOf(file.pkg.arch, file.pkg) in objects && objects[KeyOf(file.pkg.arch, file.pkg)] == file
    {
      var i :| 0 <= i < |files| && files[i] == file;
      assert arch in uploads[i].dbArches && uploads[i].blob == file;
    }
  }

  lemma PublishedOne(snapshot: Databases, dbs: Databases, uploads: seq<Upload>, files: seq<Blob>,
                     arches: seq<string>, order: seq<string>, i: nat, arch: string)
    requires Resolved(snapshot, uploads) && |uploads| == |files| && NoDuplicates(files, arches)
    requires forall j | 0 <= j < |files| :: uploads[j].blob == files[j]
    requires forall j | 0 <= j < |files| :: Covers(uploads[j], snapshot, TargetArches(arches, files[j].pkg.arch))
    requires forall j | 0 <= j < |uploads| && arch in uploads[j].dbArches :: arch in order
    requires CommittedIn(snapshot, dbs, uploads, order, arch)
    requires i < |files| && arch in TargetArches(arches, files[i].pkg.arch)
    ensures Registered(Entries(snapshot, arch), Entries(dbs, arch), files[i].pkg)
  {
    hide Upsert, CommitItems, TargetArches;
    assert Covers(uploads[i], snapshot, TargetArches(arches, files[i].pkg.arch));
    if arch in uploads[i].dbArches {
      CommittedEntry(Entries(snapshot, arch), snapshot, uploads, arch, i);
    } else {
      forall j | 0 <= j < |uploads| && arch in uploads[j].dbArches ensures uploads[j].blob.pkg.name != files[i].pkg.name {
        assert Covers(uploads[j], snapshot, TargetArches(arches, files[j].pkg.arch));
      }
      CommittedElsewhere(Entries(snapshot, arch), uploads, arch, files[i].pkg.name);
    }
  }

  lemma IndicesStep(uploads: seq<Upload>, arch: string, n: nat)
    requires n < |uploads|
    ensures Indices(uploads, arch, n + 1)
            == if arch in uploads[n].dbArches then Indices(uploads, arch, n) + [n] else Indices(uploads, arch, n)
  {
  }

  lemma ReplacedArePresent(dbs: Databases, objects: Objects, uploads: seq<Upload>, i: nat)
    requires Integral(dbs, objects) && Resolved(dbs, uploads) && i < |uploads|
    ensures forall arch | arch in uploads[i].oldByArch :: Present(objects, arch, uploads[i].oldByArch[arch])
    ensures forall arch | arch in uploads[i].oldByArch :: uploads[i].oldByArch[arch].name == uploads[i].blob.pkg.name
  {
    forall arch | arch in uploads[i].oldByArch
      ensures Present(objects, arch, uploads[i].oldByArch[arch])
      ensures uploads[i].oldByArch[arch].name == uploads[i].blob.pkg.name
    {
      assert Fits(uploads[i], arch, dbs);
    }
  }

  lemma ResolvedOneMore(dbs: Databases, uploads: seq<Upload>, u: Upload, seen: set<(string, string)>)
    requires Resolved(dbs, uploads)
    requires Distinct(u.dbArches) && forall a | a in u.oldByArch :: a in u.dbArches
    requires forall a | a in u.dbArches :: Fits(u, a, dbs) && (a, u.blob.pkg.name) !in seen
    requires forall j, a | 0 <= j < |uploads| && a in uploads[j].dbArches :: (a, uploads[j].blob.pkg.name) in seen
    ensures Resolved(dbs, uploads + [u])
  {
  }
}
