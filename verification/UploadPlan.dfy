/** The values an upload works out before it touches anything, and what its
    commit and its rollback do to one database. */
module UploadPlan {
  import opened Collections
  import opened Packages
  import opened Repositories

  /** One validated package and the databases it goes into. An arch=any package
      is stored once and registered in every concrete architecture. */
  datatype Upload = Upload(blob: Blob, dbArches: seq<string>, oldByArch: map<string, Package>)

  /** The union of configured and stored architectures, in that order. */
  function ConcreteArches(declared: seq<string>, stored: seq<string>): seq<string> {
    AddArches(AddArches([], declared), stored)
  }

  function AddArches(arches: seq<string>, more: seq<string>): (r: seq<string>)
    ensures forall a | a in arches :: a in r
    decreases |more|
  {
    if more == [] then arches
    else if more[0] == "" || more[0] == ANY || more[0] in arches then AddArches(arches, more[1..])
    else AddArches(arches + [more[0]], more[1..])
  }

  lemma {:induction false} AddArchesExact(arches: seq<string>, more: seq<string>)
    requires Distinct(arches)
    ensures Distinct(AddArches(arches, more))
    ensures forall a :: a in AddArches(arches, more) <==> a in arches || (a in more && a != "" && a != ANY)
    decreases |more|
  {
    if more != [] {
      assert more == [more[0]] + more[1..];
      if more[0] == "" || more[0] == ANY || more[0] in arches {
        AddArchesExact(arches, more[1..]);
      } else {
        AddArchesExact(arches + [more[0]], more[1..]);
      }
    }
  }

  /** Without permission to extend itself, a repository serves the architectures
      it declares or stores, or any at all while it has neither. */
  predicate ArchAccepted(declared: seq<string>, stored: seq<string>, arch: string) {
    || arch == ANY || arch in declared || arch in stored
    || (declared == [] && stored == [])
  }

  function TargetArches(arches: seq<string>, pkgArch: string): seq<string> {
    if pkgArch == ANY then arches else [pkgArch]
  }

  /** Which databases a package goes into: its own architecture's, or for arch=any those of
      every concrete architecture the repository declares or stores. */
  predicate Targets(declared: seq<string>, stored: seq<string>, p: Package, arch: string) {
    if p.arch == ANY then (arch in declared || arch in stored) && arch != "" && arch != ANY else arch == p.arch
  }

  lemma TargetsExactly(declared: seq<string>, stored: seq<string>, p: Package)
    ensures Distinct(ConcreteArches(declared, stored))
    ensures forall arch | arch in ConcreteArches(declared, stored) :: Concrete(arch)
    ensures forall arch ::
      arch in TargetArches(ConcreteArches(declared, stored), p.arch) <==> Targets(declared, stored, p, arch)
  {
    AddArchesExact([], declared);
    AddArchesExact(AddArches([], declared), stored);
    hide AddArches;
  }

  /** The upload passed the version gate of `arch` against the database `db`. */
  predicate PassedGate(u: Upload, arch: string, db: Database) {
    && (u.blob.pkg.name in db <==> arch in u.oldByArch)
    && (arch in u.oldByArch ==> u.oldByArch[arch] == db[u.blob.pkg.name]
                                && VerCmp(u.blob.pkg.version, u.oldByArch[arch].version) > 0)
  }

  /** `arch` may take the upload, and the gate let it. */
  predicate Fits(u: Upload, arch: string, dbs: Databases) {
    Concrete(arch) && (u.blob.pkg.arch == ANY || u.blob.pkg.arch == arch) && PassedGate(u, arch, Entries(dbs, arch))
  }

  /** The snapshot a resolved batch was gated against; per architecture, no two
      uploads carry the same package. */
  ghost predicate Resolved(dbs: Databases, uploads: seq<Upload>) {
    && (forall i | 0 <= i < |uploads| :: Distinct(uploads[i].dbArches))
    && (forall i, arch | 0 <= i < |uploads| && arch in uploads[i].oldByArch :: arch in uploads[i].dbArches)
    && (forall i, arch | 0 <= i < |uploads| && arch in uploads[i].dbArches :: Fits(uploads[i], arch, dbs))
    && forall i, j, arch | 0 <= i < j < |uploads| && arch in uploads[i].dbArches && arch in uploads[j].dbArches ::
         uploads[i].blob.pkg.name != uploads[j].blob.pkg.name
  }

  /** The uploads that go into `arch`, in batch order. */
  function Indices(uploads: seq<Upload>, arch: string, n: nat): (r: seq<nat>)
    requires n <= |uploads|
    ensures forall k | 0 <= k < |r| :: r[k] < n && arch in uploads[r[k]].dbArches
    ensures forall k, l | 0 <= k < l < |r| :: r[k] < r[l]
    ensures forall i | 0 <= i < n && arch in uploads[i].dbArches :: i in r
  {
    if n == 0 then []
    else
      var r := Indices(uploads, arch, n - 1);
      if arch in uploads[n - 1].dbArches then r + [n - 1] else r
  }

  function Batch(uploads: seq<Upload>, arch: string): seq<nat> {
    Indices(uploads, arch, |uploads|)
  }

  /** What the commit of one upload expects and intends in `arch`. */
  function CommitItem(u: Upload, arch: string): AddItem {
    AddItem(u.blob.pkg, true, u.blob.pkg.name,
            if arch in u.oldByArch then Some(IdentityOf(u.oldByArch[arch])) else None,
            Some(IdentityOf(u.blob.pkg)))
  }

  function CommitItems(uploads: seq<Upload>, arch: string): seq<AddItem> {
    var batch := Batch(uploads, arch);
    seq(|batch|, k requires 0 <= k < |batch| => CommitItem(uploads[batch[k]], arch))
  }

  /** A commit that lost its reply is accepted again: the batch names each package once, guards
      it by its own entry, and takes its own outcome for the intended one. */
  lemma CommitItemsGuardThemselves(dbs: Databases, uploads: seq<Upload>, arch: string)
    requires Resolved(dbs, uploads)
    ensures DistinctNames(CommitItems(uploads, arch)) && GuardsItself(CommitItems(uploads, arch))
    ensures forall k | 0 <= k < |CommitItems(uploads, arch)| :: CommitItems(uploads, arch)[k].checkCurrent
  {
    hide Indices, Fits;
  }

  /** The compensation of one upload: put the old package back, or remove the new
      one, but only where the new one is still what the database lists. */
  function RestoreMutation(u: Upload, arch: string): Mutation {
    if arch in u.oldByArch
    then AddBatch([AddItem(u.oldByArch[arch], true, u.blob.pkg.name, Some(IdentityOf(u.blob.pkg)), None)])
    else Remove(u.blob.pkg.name, Some(IdentityOf(u.blob.pkg)))
  }

  predicate AgreeAt(db: Database, db': Database, name: string) {
    (name in db <==> name in db') && (name in db ==> db[name] == db'[name])
  }

  /** `db` differs from the snapshot at most where an upload of the batch, from
      the k-th on, is registered in place of what it found. */
  ghost predicate Between(snapshot: Database, db: Database, uploads: seq<Upload>, batch: seq<nat>, k: nat) {
    forall name :: AgreeAt(snapshot, db, name) || NewAt(db, uploads, batch, k, name)
  }

  ghost predicate NewAt(db: Database, uploads: seq<Upload>, batch: seq<nat>, k: nat, name: string) {
    exists j :: k <= j < |batch| && batch[j] < |uploads| && uploads[batch[j]].blob.pkg.name == name
                && name in db && db[name] == uploads[batch[j]].blob.pkg
  }

  /** A committed batch lies between the snapshot and itself. */
  lemma CommitIsBetween(snapshot: Database, uploads: seq<Upload>, arch: string)
    ensures Between(snapshot, Upsert(snapshot, CommitItems(uploads, arch)), uploads, Batch(uploads, arch), 0)
  {
    var items, batch := CommitItems(uploads, arch), Batch(uploads, arch);
    var db := Upsert(snapshot, items);
    forall name ensures AgreeAt(snapshot, db, name) || NewAt(db, uploads, batch, 0, name) {
      UpsertEntry(snapshot, items, name);
      hide Upsert;
      if name in db && !(name in snapshot && db[name] == snapshot[name]) {
        var i :| 0 <= i < |items| && items[i].pkg.name == name && db[name] == items[i].pkg;
        assert items[i] == CommitItem(uploads[batch[i]], arch);
        assert 0 <= i < |batch| && uploads[batch[i]].blob.pkg.name == name && db[name] == uploads[batch[i]].blob.pkg;
      }
    }
  }

  /** What one compensation leaves behind: no change unless the upload's own
      package is listed, and then exactly the snapshot's entry again. */
  function Restored(u: Upload, arch: string, current: Option<Database>): Database {
    var r := Effect(RestoreMutation(u, arch), current);
    if r.Some? then r.value else OrEmpty(current)
  }

  predicate Undoable(u: Upload, arch: string, snapshot: Database) {
    PassedGate(u, arch, snapshot) && (arch in u.oldByArch ==> u.oldByArch[arch].name == u.blob.pkg.name)
  }

  lemma RestoreEffect(snapshot: Database, current: Option<Database>, u: Upload, arch: string)
    requires Undoable(u, arch, snapshot)
    requires var name, db := u.blob.pkg.name, OrEmpty(current);
      AgreeAt(snapshot, db, name) || (name in db && db[name] == u.blob.pkg)
    ensures AgreeAt(snapshot, Restored(u, arch, current), u.blob.pkg.name)
    ensures forall other | other != u.blob.pkg.name :: AgreeAt(OrEmpty(current), Restored(u, arch, current), other)
  {
    var db, m := OrEmpty(current), RestoreMutation(u, arch);
    if arch in u.oldByArch {
      assert Upsert(db, m.items) == db[u.blob.pkg.name := u.oldByArch[arch]] by {
        assert m.items[..0] == [];
      }
    }
  }

  lemma RestoreStep(snapshot: Database, current: Option<Database>, uploads: seq<Upload>, arch: string, k: nat)
    requires k < |Batch(uploads, arch)|
    requires forall i, j | 0 <= i < j < |uploads| && arch in uploads[i].dbArches && arch in uploads[j].dbArches ::
      uploads[i].blob.pkg.name != uploads[j].blob.pkg.name
    requires Between(snapshot, OrEmpty(current), uploads, Batch(uploads, arch), k)
    requires Undoable(uploads[Batch(uploads, arch)[k]], arch, snapshot)
    ensures Between(snapshot, Restored(uploads[Batch(uploads, arch)[k]], arch, current), uploads, Batch(uploads, arch), k + 1)
  {
    var batch := Batch(uploads, arch);
    hide Indices;
    var u, db := uploads[batch[k]], OrEmpty(current);
    var name := u.blob.pkg.name;
    assert forall j | k < j < |batch| :: uploads[batch[j]].blob.pkg.name != name;
    assert AgreeAt(snapshot, db, name) || NewAt(db, uploads, batch, k, name);
    RestoreEffect(snapshot, current, u, arch);
    hide Restored;
    var db' := Restored(u, arch, current);
    forall other | other != name ensures AgreeAt(snapshot, db', other) || NewAt(db', uploads, batch, k + 1, other) {
      assert AgreeAt(db, db', other);
      if !AgreeAt(snapshot, db, other) {
        var j :| k <= j < |batch| && batch[j] < |uploads| && uploads[batch[j]].blob.pkg.name == other
                 && other in db && db[other] == uploads[batch[j]].blob.pkg;
        assert j != k;
      }
    }
  }

  /** Nothing left to undo means nothing is different. */
  lemma NothingBetween(snapshot: Database, db: Database, uploads: seq<Upload>, batch: seq<nat>)
    requires Between(snapshot, db, uploads, batch, |batch|)
    ensures db == snapshot
  {
    forall name ensures name in db <==> name in snapshot {
      assert AgreeAt(snapshot, db, name);
    }
    forall name | name in db ensures db[name] == snapshot[name] {
      assert AgreeAt(snapshot, db, name);
    }
  }
}
