/** One repository as a single writer sees it: canonical databases, package
    objects, and store calls any of which may fail, with or without effect. */
module Repositories {
  import opened Collections
  import opened Packages

  datatype Key = Key(dir: string, file: string)

  /** A package file: what its metadata says, and which build of it this is. */
  datatype Blob = Blob(pkg: Package, build: nat)

  type Databases = map<string, Database>
  type Objects = map<Key, Blob>

  const ANY: string := "any"
  const MAX_ATTEMPTS: nat := 6

  function KeyOf(arch: string, p: Package): Key {
    Key(if p.arch == ANY then ANY else arch, p.file)
  }

  /** Databases exist for concrete architectures only. */
  predicate Concrete(arch: string) {
    arch != "" && arch != ANY
  }

  /** The object a database entry of `arch` points to exists, is that package, and
      is built for this architecture or for any. */
  predicate Present(objects: Objects, arch: string, p: Package) {
    (p.arch == ANY || p.arch == arch) && KeyOf(arch, p) in objects && objects[KeyOf(arch, p)].pkg == p
  }

  /** Referential integrity. */
  ghost predicate Integral(dbs: Databases, objects: Objects) {
    && (forall arch | arch in dbs :: Concrete(arch))
    && forall arch, name | arch in dbs && name in dbs[arch] ::
         dbs[arch][name].name == name && Present(objects, arch, dbs[arch][name])
  }

  function Entries(dbs: Databases, arch: string): Database {
    if arch in dbs then dbs[arch] else map[]
  }

  function Found(dbs: Databases, arch: string): Option<Database> {
    if arch in dbs then Some(dbs[arch]) else None
  }

  /** `Failure` carries whether a guard refused, and the canonical-commit marker. */
  datatype TxResult = Committed | Failure(changed: bool, marked: bool)

  datatype StoreResult = Stored | Mismatch | Unavailable

  /** Every mutation in `m` adds packages whose objects are in place. */
  ghost predicate Backed(objects: Objects, arch: string, m: Mutation) {
    m.AddBatch? ==> forall i | 0 <= i < |m.items| :: Present(objects, arch, m.items[i].pkg)
  }

  lemma EffectKeepsIntegrity(dbs: Databases, objects: Objects, arch: string, m: Mutation, db: Database)
    requires Integral(dbs, objects) && Concrete(arch) && Backed(objects, arch, m)
    requires Effect(m, Found(dbs, arch)) == Some(db)
    ensures Integral(dbs[arch := db], objects)
  {
    forall name | name in db ensures db[name].name == name && Present(objects, arch, db[name]) {
      if m.AddBatch? {
        UpsertEntry(Entries(dbs, arch), m.items, name);
        hide Upsert;
      }
    }
  }

  class Repository {
    var dbs: Databases
    var objects: Objects

    ghost predicate Valid()
      reads this
    {
      Integral(dbs, objects)
    }

    constructor ()
      ensures Valid() && dbs == map[] && objects == map[]
    {
      dbs, objects := map[], map[];
    }

    /** The optimistic transaction. Without a second writer a conflict can only be
        a spurious one, so what remains is every way in which calls can fail. */
    method MutateDB(arch: string, m: Mutation, reliable: bool) returns (r: TxResult)
      requires Valid() && Concrete(arch) && Backed(objects, arch, m)
      modifies this`dbs
      ensures Valid()
      ensures dbs == old(dbs) || (Effect(m, Found(old(dbs), arch)).Some?
                                  && dbs == old(dbs)[arch := Effect(m, Found(old(dbs), arch)).value])
      ensures r.Committed? ==> Found(dbs, arch).Some? && Found(dbs, arch) == Effect(m, Found(old(dbs), arch))
      ensures r.Failure? && !r.marked ==> dbs == old(dbs)
      ensures r.Failure? && r.changed ==>
        Entries(dbs, arch) == match Effect(m, Found(old(dbs), arch)) case Some(db) => db case None => Entries(old(dbs), arch)
      ensures reliable ==> (r.Committed? <==> Effect(m, Found(old(dbs), arch)).Some?)
      ensures reliable && r.Failure? ==> r == Failure(true, false)
    {
      hide Effect, Integral;
      var marked := false;
      ghost var goal := Effect(m, Found(dbs, arch));
      for attempt := 0 to MAX_ATTEMPTS
        invariant dbs == old(dbs) || (marked && goal.Some? && dbs == old(dbs)[arch := goal.value])
        invariant reliable ==> attempt == 0 && dbs == old(dbs) && !marked
        invariant Valid()
      {
        var fetched := *;
        if !fetched && !reliable {
          return Failure(false, marked);
        }
        var result := Effect(m, Found(dbs, arch));
        if goal.Some? {
          EffectTwice(m, Found(old(dbs), arch), goal.value);
        }
        if result.None? {
          return Failure(true, marked);
        }
        var toolRan, written, answered, published := *, *, *, *;
        if !toolRan && !reliable {
          return Failure(false, marked);
        }
        if written || reliable {
          EffectKeepsIntegrity(dbs, objects, arch, m, result.value);
          dbs := dbs[arch := result.value];
          if (answered && published) || reliable {
            return Committed;
          }
          marked := true;
        } else if !answered {
          marked := true;
        }
      }
      return Failure(false, marked);
    }

    /** Create or renew an immutable object. */
    method StoreImmutable(key: Key, blob: Blob, reliable: bool) returns (r: StoreResult)
      requires Valid()
      modifies this`objects
      ensures Valid()
      ensures objects == old(objects) || (key !in old(objects) && objects == old(objects)[key := blob])
      ensures r.Stored? ==> key in objects && objects[key] == blob
      ensures r.Mismatch? <==> r != Unavailable && key in old(objects) && old(objects)[key] != blob
      ensures reliable ==> r != Unavailable
    {
      var probed, written, answered := *, *, *;
      if !probed && !reliable {
        return Unavailable;
      }
      if key in objects && objects[key] != blob {
        return Mismatch;
      }
      if written || reliable {
        objects := objects[key := blob];
      }
      return if (written && answered) || reliable then Stored else Unavailable;
    }

    /** Read a package object back; a failing read is not told from a missing one. */
    method Spool(key: Key, reliable: bool) returns (blob: Option<Blob>)
      ensures blob.Some? ==> key in objects && objects[key] == blob.value
      ensures reliable && key in objects ==> blob.Some?
    {
      var answered := *;
      blob := if (answered || reliable) && key in objects then Some(objects[key]) else None;
    }

    /** Delete an object no database points to. */
    method DeleteFile(key: Key, reliable: bool) returns (ok: bool)
      requires Valid()
      requires forall arch, name | arch in dbs && name in dbs[arch] :: KeyOf(arch, dbs[arch][name]) != key
      modifies this`objects
      ensures Valid()
      ensures objects == old(objects) || objects == old(objects) - {key}
      ensures ok ==> key !in objects
      ensures reliable ==> ok
    {
      var done, answered := *, *;
      if done || reliable {
        objects := objects - {key};
      }
      ok := (done && answered) || reliable;
    }
  }
}
