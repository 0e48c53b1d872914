/** Removal, promotion between tiers, and orphan collection by a single writer:
    what each does, and that none of them leaves a database entry without its object. */
module RepositoryUpkeep {
  import opened Collections
  import opened Packages
  import opened PublishGate
  import opened Repositories
  import opened UploadPlan

  /** The entry under `name` in the first architecture of the list that has one. */
  function FirstListed(dbs: Databases, arches: seq<string>, name: string): Option<Package> {
    if arches == [] then None
    else if name in Entries(dbs, arches[0]) then Some(Entries(dbs, arches[0])[name])
    else FirstListed(dbs, arches[1..], name)
  }

  lemma {:induction false} FirstListedAt(dbs: Databases, arches: seq<string>, name: string, k: nat)
    requires k <= |arches| && forall j | 0 <= j < k :: name !in Entries(dbs, arches[j])
    ensures FirstListed(dbs, arches, name)
         == if k == |arches| then None
            else if name in Entries(dbs, arches[k]) then Some(Entries(dbs, arches[k])[name])
            else FirstListed(dbs, arches[k + 1..], name)
  {
    if k > 0 {
      assert forall j | 0 <= j < k - 1 :: arches[1..][j] == arches[j + 1];
      FirstListedAt(dbs, arches[1..], name, k - 1);
      assert k < |arches| ==> arches[1..][k..] == arches[k + 1..];
    }
  }

  /** Where a package is listed decides what a removal is about: the first database in
      the order asked that has it; one that cannot be read is passed over. */
  method ResolvePackage(repo: Repository, arches: seq<string>, name: string, works: bool)
    returns (found: Option<Package>)
    requires repo.Valid()
    ensures found.Some? ==> found.value.name == name && Lists(repo.dbs, found.value, name)
    ensures works ==> found == FirstListed(repo.dbs, arches, name)
  {
    for k := 0 to |arches|
      invariant works ==> forall j | 0 <= j < k :: name !in Entries(repo.dbs, arches[j])
    {
      var readable := *;
      var a := arches[k];
      if (readable || works) && a in repo.dbs && name in repo.dbs[a] {
        if works {
          FirstListedAt(repo.dbs, arches, name, k);
        }
        return Some(repo.dbs[a][name]);
      }
    }
    if works {
      FirstListedAt(repo.dbs, arches, name, |arches|);
    }
    found := None;
  }

  predicate Unlisted(dbs: Databases, arches: seq<string>, name: string) {
    forall a | a in arches :: name !in Entries(dbs, a)
  }

  /** The databases `dbs` with some entries called `name` taken out. */
  ghost predicate Dropped(before: Databases, after: Databases, name: string) {
    && after.Keys == before.Keys
    && forall a | a in before :: after[a] == before[a] || after[a] == before[a] - {name}
  }

  /** One removal takes the package out of one database at most. */
  lemma DropOne(start: Databases, before: Databases, after: Databases, arches: seq<string>, k: nat, name: string)
    requires k < |arches| && Dropped(start, before, name) && Unlisted(before, arches[..k], name)
    requires forall a | a !in arches :: Entries(before, a) == Entries(start, a)
    requires var effect := Effect(Remove(name, None), Found(before, arches[k]));
      after == before || (effect.Some? && after == before[arches[k] := effect.value])
    ensures Dropped(start, after, name) && Unlisted(after, arches[..k], name)
    ensures forall a | a !in arches :: Entries(after, a) == Entries(start, a)
    ensures Found(after, arches[k]).Some?
      && Found(after, arches[k]) == Effect(Remove(name, None), Found(before, arches[k]))
      ==> Unlisted(after, arches[..k + 1], name)
  {
    var arch := arches[k];
    assert arch in arches && arches[..k + 1] == arches[..k] + [arch];
    assert arch in before && name !in before[arch] ==> before[arch] - {name} == before[arch];
    assert arch in before ==>
      Effect(Remove(name, None), Found(before, arch)) == Some(before[arch] - {name});
    hide Effect;
    assert forall a | a in before && a != arch :: a in after && after[a] == before[a];
  }

  lemma RemovalNeedsDatabase(dbs: Databases, arch: string, name: string)
    ensures Effect(Remove(name, None), Found(dbs, arch)).Some? <==> arch in dbs
  {
  }

  /** With `works`, only a missing database stops it. */
  method DropFrom(repo: Repository, arches: seq<string>, name: string, works: bool) returns (ok: bool)
    requires repo.Valid() && forall a | a in arches :: Concrete(a)
    modifies repo`dbs
    ensures repo.Valid() && Dropped(old(repo.dbs), repo.dbs, name)
    ensures ok ==> Unlisted(repo.dbs, arches, name)
    ensures works ==> (ok <==> forall a | a in arches :: a in old(repo.dbs))
    ensures forall a | a !in arches :: Entries(repo.dbs, a) == Entries(old(repo.dbs), a)
  {
    for k := 0 to |arches|
      invariant repo.Valid() && Dropped(old(repo.dbs), repo.dbs, name)
      invariant Unlisted(repo.dbs, arches[..k], name)
      invariant forall a | a !in arches :: Entries(repo.dbs, a) == Entries(old(repo.dbs), a)
      invariant works ==> forall a | a in arches[..k] :: a in old(repo.dbs)
    {
      hide Integral, Concrete;
      ghost var before := repo.dbs;
      var result := repo.MutateDB(arches[k], Remove(name, None), works);
      RemovalNeedsDatabase(before, arches[k], name);
      DropOne(old(repo.dbs), before, repo.dbs, arches, k, name);
      if result != Committed {
        return false;
      }
    }
    assert arches[..|arches|] == arches;
    ok := true;
  }

  /** Does an architecture outside the just-removed set still list the package? */
  method StillRegistered(repo: Repository, arches: seq<string>, removed: seq<string>, name: string, works: bool)
    returns (answer: Option<bool>)
    ensures works ==> answer.Some?
    ensures answer == Some(false) ==> forall a | a in arches && a !in removed :: name !in Entries(repo.dbs, a)
    ensures answer == Some(true) ==> exists a :: a in arches && a !in removed && name in Entries(repo.dbs, a)
  {
    for k := 0 to |arches|
      invariant forall a | a in arches[..k] && a !in removed :: name !in Entries(repo.dbs, a)
    {
      var a := arches[k];
      assert arches[..k + 1] == arches[..k] + [a];
      if a !in removed {
        var readable := *;
        if !readable && !works {
          return None;
        }
        if name in Entries(repo.dbs, a) {
          return Some(true);
        }
      }
    }
    assert arches[..|arches|] == arches;
    answer := Some(false);
  }

  /** What a removal is about: the package, where to drop it, and every architecture. */
  datatype Removal = Removal(p: Package, targets: seq<string>, arches: seq<string>)

  ghost predicate IsRemoval(dbs: Databases, objects: Objects, arch: string, name: string, r: Removal) {
    && r.targets != [] && Lists(dbs, r.p, name) && r.p.name == name
    && (forall a | a in r.targets :: Concrete(a))
    && (forall a | a in dbs :: a in r.arches)
    && (Concrete(arch) ==> r.targets == [arch])
    && (if r.p.arch != ANY then r.targets == [r.p.arch] else !Concrete(arch) ==> r.targets == r.arches)
    && KeyOf(r.p.arch, r.p) in objects && objects[KeyOf(r.p.arch, r.p)].pkg == r.p
  }

  /** The architectures a removal looks at, the requested one first. */
  function AskedOrder(arch: string, arches: seq<string>): seq<string> {
    (if Concrete(arch) then [arch] else []) + arches
  }

  /** The requested architecture decides if it lists the name; otherwise any listing will do. */
  lemma AskedFirst(dbs: Databases, objects: Objects, arch: string, arches: seq<string>, name: string)
    requires Integral(dbs, objects) && forall a | a in dbs :: a in arches
    ensures var first := FirstListed(dbs, AskedOrder(arch, arches), name);
      && (Concrete(arch) && arch in dbs && name in dbs[arch] ==>
            first == Some(dbs[arch][name]) && (dbs[arch][name].arch == ANY || dbs[arch][name].arch == arch))
      && (first.Some? <==> exists a :: a in dbs && name in dbs[a])
  {
    FirstListedExists(dbs, AskedOrder(arch, arches), name);
    if Concrete(arch) && arch in dbs && name in dbs[arch] {
      assert Present(objects, arch, dbs[arch][name]);
      FirstListedAt(dbs, AskedOrder(arch, arches), name, 0);
    }
    hide FirstListed;
  }

  lemma {:induction false} FirstListedExists(dbs: Databases, arches: seq<string>, name: string)
    ensures FirstListed(dbs, arches, name).Some? <==> exists a :: a in arches && a in dbs && name in dbs[a]
  {
    if arches != [] {
      FirstListedExists(dbs, arches[1..], name);
      assert arches == [arches[0]] + arches[1..];
    }
  }

  method PlanRemoval(repo: Repository, declared: seq<string>, stored: seq<string>, arch: string, name: string, works: bool)
    returns (plan: Option<Removal>)
    requires repo.Valid() && forall a | a in repo.dbs :: a in stored
    ensures plan.Some? ==> IsRemoval(repo.dbs, repo.objects, arch, name, plan.value)
    ensures works ==>
      var first := FirstListed(repo.dbs, AskedOrder(arch, ConcreteArches(declared, stored)), name);
      if first.Some? && (first.value.arch == ANY || !Concrete(arch) || arch == first.value.arch)
      then plan.Some? && plan.value.p == first.value else plan.None?
    ensures works && arch != "" && arch != ANY && arch in repo.dbs && name in repo.dbs[arch] ==>
      plan.Some? && plan.value.p == repo.dbs[arch][name] && plan.value.targets == [arch]
    ensures works && (arch == "" || arch == ANY) ==>
      (plan.Some? <==> exists a :: a in repo.dbs && name in repo.dbs[a])
  {
    var arches := ConcreteArches(declared, stored);
    KnownArches(repo.dbs, repo.objects, declared, stored);
    AskedFirst(repo.dbs, repo.objects, arch, arches, name);
    hide Integral, ConcreteArches, AskedOrder, FirstListed, IsRemoval, Lists;
    var found := ResolvePackage(repo, AskedOrder(arch, arches), name, works);
    if found.None? {
      return None;
    }
    var p := found.value;
    var listed := *;
    if p.arch == ANY && !listed && !works {
      return None;
    }
    if p.arch != ANY && Concrete(arch) && arch != p.arch {
      return None;
    }
    var targets := if p.arch != ANY then [p.arch] else if Concrete(arch) then [arch] else arches;
    PlanIsRemoval(repo.dbs, repo.objects, arch, arches, name, p, targets);
    if |targets| == 0 {
      return None;
    }
    plan := Some(Removal(p, targets, arches));
  }

  lemma KnownArches(dbs: Databases, objects: Objects, declared: seq<string>, stored: seq<string>)
    requires Integral(dbs, objects) && forall a | a in dbs :: a in stored
    ensures forall a | a in dbs :: a in ConcreteArches(declared, stored)
    ensures forall a | a in ConcreteArches(declared, stored) :: Concrete(a)
    ensures Distinct(ConcreteArches(declared, stored))
  {
    AddArchesExact([], declared);
    AddArchesExact(AddArches([], declared), stored);
    hide AddArches;
  }

  lemma PlanIsRemoval(dbs: Databases, objects: Objects, arch: string, arches: seq<string>, name: string, p: Package,
                      targets: seq<string>)
    requires Integral(dbs, objects) && Lists(dbs, p, name)
    requires (forall a | a in dbs :: a in arches) && forall a | a in arches :: Concrete(a)
    requires p.arch == ANY || !Concrete(arch) || arch == p.arch
    requires targets == if p.arch != ANY then [p.arch] else if Concrete(arch) then [arch] else arches
    ensures targets != [] && IsRemoval(dbs, objects, arch, name, Removal(p, targets, arches))
  {
    FoundIsConcrete(dbs, objects, p, name);
  }

  /** De-register a package and delete its file once nothing lists it. `stored`
      names every architecture directory of the repository; "" or "any" for `arch`
      asks for all of them, but a package found built for one architecture is dropped
      from that one only. */
  method RemovePkg(repo: Repository, declared: seq<string>, stored: seq<string>, arch: string, name: string, works: bool)
    returns (ok: bool, plan: Option<Removal>)
    requires repo.Valid() && forall a | a in repo.dbs :: a in stored
    modifies repo
    ensures repo.Valid() && Dropped(old(repo.dbs), repo.dbs, name)
    ensures plan.Some? ==> IsRemoval(old(repo.dbs), old(repo.objects), arch, name, plan.value)
    ensures works ==>
      var first := FirstListed(old(repo.dbs), AskedOrder(arch, ConcreteArches(declared, stored)), name);
      if first.Some? && (first.value.arch == ANY || !Concrete(arch) || arch == first.value.arch)
      then plan.Some? && plan.value.p == first.value else plan.None?
    ensures works && arch != "" && arch != ANY && arch in old(repo.dbs) && name in old(repo.dbs)[arch] ==>
      plan.Some? && plan.value.p == old(repo.dbs)[arch][name] && plan.value.targets == [arch]
    ensures works && (arch == "" || arch == ANY) ==>
      (plan.Some? <==> exists a :: a in old(repo.dbs) && name in old(repo.dbs)[a])
    ensures works ==> (ok <==> plan.Some? && forall a | a in plan.value.targets :: a in old(repo.dbs))
    ensures plan.None? ==> !ok && repo.dbs == old(repo.dbs)
    ensures ok ==> Unlisted(repo.dbs, plan.value.targets, name)
    ensures plan.Some? ==> forall a | a !in plan.value.targets :: Entries(repo.dbs, a) == Entries(old(repo.dbs), a)
    ensures ok && !Concrete(arch) ==>
      ((forall a | a in plan.value.arches :: name !in Entries(repo.dbs, a)) <==> TakesAllListings(old(repo.dbs), plan.value, name))
    ensures ok ==> KeyOf(plan.value.p.arch, plan.value.p) !in repo.objects
                   || (plan.value.p.arch == ANY && Concrete(arch) && exists a :: a != arch && name in Entries(repo.dbs, a))
    ensures forall key | key in old(repo.objects) && old(repo.objects)[key].pkg.name != name ::
      key in repo.objects && repo.objects[key] == old(repo.objects)[key]
  {
    ok := false;
    hide Integral, Concrete, FirstListed, AskedOrder;
    plan := PlanRemoval(repo, declared, stored, arch, name, works);
    if plan.None? {
      return;
    }
    var p, targets, arches := plan.value.p, plan.value.targets, plan.value.arches;
    var dropped := DropFrom(repo, targets, name, works);
    if !dropped {
      return;
    }
    if p.arch == ANY && Concrete(arch) {
      var registered := StillRegistered(repo, arches, targets, name, works);
      if registered.None? || registered.value {
        ok := registered.Some?;
        return;
      }
    }
    var key := KeyOf(p.arch, p);
    assert p.arch == ANY ==> forall a | a in repo.dbs :: name !in Entries(repo.dbs, a);
    UnlistedIsUnreferenced(repo.dbs, repo.objects, p, name);
    ok := repo.DeleteFile(key, works);
    var named := *;  // the package-name entry goes last
    ok := ok && (named || works);
  }

  /** The package found is shared, or no other architecture lists one of its name. */
  predicate TakesAllListings(dbs: Databases, r: Removal, name: string) {
    r.p.arch == ANY || forall a | a in r.arches && a != r.p.arch :: name !in Entries(dbs, a)
  }

  /**
   * A removal from all architectures can leave a listing: one that finds the package built
   * for one architecture passes over an older shared one that another still lists.
   */
  lemma MixedListingSurvives() returns (dbs: Databases, objects: Objects, r: Removal, after: Databases)
    ensures Integral(dbs, objects) && IsRemoval(dbs, objects, "", "foo", r)
    ensures FirstListed(dbs, r.arches, "foo") == Some(r.p) && !TakesAllListings(dbs, r, "foo")
    ensures Dropped(dbs, after, "foo") && Unlisted(after, r.targets, "foo")
    ensures "foo" in Entries(after, "aarch64")
  {
    var shared := Package("foo", Version("1", 1.0), "foo-1-any.pkg.tar.zst", ANY);
    var built := Package("foo", Version("2", 2.0), "foo-2-x86_64.pkg.tar.zst", "x86_64");
    dbs := map["x86_64" := map["foo" := built], "aarch64" := map["foo" := shared]];
    after := map["x86_64" := map[], "aarch64" := map["foo" := shared]];
    objects := map[KeyOf("x86_64", built) := Blob(built, 0), KeyOf("aarch64", shared) := Blob(shared, 0)];
    r := Removal(built, ["x86_64"], ["x86_64", "aarch64"]);
    assert dbs["x86_64"] - {"foo"} == after["x86_64"];
    assert KeyOf("x86_64", built).dir != KeyOf("aarch64", shared).dir;
    assert "x86_64" in dbs && "foo" in dbs["x86_64"];
    assert r.arches[0] == "x86_64" && r.arches[1] == "aarch64" && "aarch64" in r.arches;
  }

  ghost predicate Lists(dbs: Databases, p: Package, name: string) {
    exists a :: a in dbs && name in dbs[a] && dbs[a][name] == p
  }

  lemma FoundIsConcrete(dbs: Databases, objects: Objects, p: Package, name: string)
    requires Integral(dbs, objects)
    requires Lists(dbs, p, name)
    ensures p.name == name
    ensures p.arch == ANY || Concrete(p.arch)
    ensures KeyOf(p.arch, p) in objects && objects[KeyOf(p.arch, p)].pkg == p
  {
    var a :| a in dbs && name in dbs[a] && dbs[a][name] == p;
    assert Present(objects, a, p);
  }

  /** A file may go when no database that could reach it lists its package. */
  lemma UnlistedIsUnreferenced(dbs: Databases, objects: Objects, p: Package, name: string)
    requires Integral(dbs, objects) && p.name == name
    requires KeyOf(p.arch, p) in objects && objects[KeyOf(p.arch, p)].pkg == p
    requires if p.arch == ANY then forall a | a in dbs :: name !in Entries(dbs, a) else name !in Entries(dbs, p.arch)
    ensures forall a, n | a in dbs && n in dbs[a] :: KeyOf(a, dbs[a][n]) != KeyOf(p.arch, p)
  {
    forall a, n | a in dbs && n in dbs[a] ensures KeyOf(a, dbs[a][n]) != KeyOf(p.arch, p) {
      assert Present(objects, a, dbs[a][n]) && Concrete(a);
    }
  }

  // ---------------------------------------------------------------- promotion

  /** Nothing but `name` may differ, and that not by a lower version. */
  ghost predicate PromotedEntry(before: Database, after: Database, name: string) {
    NoOlder(before, after) && forall n | n != name :: AgreeAt(before, after, n)
  }

  /** The target may take it: older there, or the same version under the same file, and its key not another build's. */
  predicate MayTake(db: Database, objects: Objects, key: Key, p: Package, blob: Blob) {
    && (p.name in db ==> VerCmp(db[p.name].version, p.version) < 0
                         || (VerCmp(db[p.name].version, p.version) == 0 && db[p.name].file == p.file))
    && (key in objects ==> objects[key] == blob)
  }

  /** Copy one architecture's package into the target tier and register it there. With `works`,
      exactly what the target may take gets there. */
  method PromoteOneArch(src: Repository, dst: Repository, arch: string, p: Package, works: bool) returns (ok: bool)
    requires src != dst && src.Valid() && dst.Valid() && Concrete(arch)
    requires Present(src.objects, arch, p)
    modifies dst
    ensures dst.Valid()
    ensures ok ==> p.name in Entries(dst.dbs, arch) && Entries(dst.dbs, arch)[p.name] == p
    ensures ok ==> KeyOf(arch, p) in dst.objects && dst.objects[KeyOf(arch, p)] == src.objects[KeyOf(arch, p)]
    ensures forall a | a != arch :: Entries(dst.dbs, a) == Entries(old(dst.dbs), a)
    ensures PromotedEntry(Entries(old(dst.dbs), arch), Entries(dst.dbs, arch), p.name)
    ensures dst.objects == old(dst.objects)
      || (KeyOf(arch, p) !in old(dst.objects) && dst.objects == old(dst.objects)[KeyOf(arch, p) := src.objects[KeyOf(arch, p)]])
    ensures ok || works ==>
      (ok <==> MayTake(Entries(old(dst.dbs), arch), old(dst.objects), KeyOf(arch, p), p, src.objects[KeyOf(arch, p)]))
  {
    var readable := *;
    if !readable && !works {
      return false;
    }
    var verdict := GatePromotion(p, Entries(dst.dbs, arch));
    if verdict.Refuse? {
      return false;
    }
    var key := KeyOf(arch, p);
    var spooled := src.Spool(key, works);
    if spooled.None? {
      return false;
    }
    var stored := dst.StoreImmutable(key, spooled.value, works);
    if stored != Stored {
      return false;
    }
    ghost var before := Entries(dst.dbs, arch);
    PromotionEffect(Found(dst.dbs, arch), p, verdict.item);
    hide Effect, Integral, PromotedEntry;
    var result := dst.MutateDB(arch, AddBatch([verdict.item]), works);
    var named := *;  // the package-name entry
    ok := result.Committed? && (named || works);
  }

  lemma PromotionEffect(current: Option<Database>, p: Package, item: AddItem)
    requires GatePromotion(p, OrEmpty(current)) == Publish(item)
    ensures item.pkg == p
    ensures Effect(AddBatch([item]), current) == Some(OrEmpty(current)[p.name := p])
    ensures PromotedEntry(OrEmpty(current), OrEmpty(current)[p.name := p], p.name)
    ensures PromotedEntry(OrEmpty(current), OrEmpty(current), p.name)
  {
    assert [item][..0] == [];
    assert Upsert(OrEmpty(current), [item]) == OrEmpty(current)[p.name := p];
    assert ExpectationHolds(OrEmpty(current), item);
  }

  /** The source lists the package in `a`, in the version asked for, and the target may take it. */
  ghost predicate Promotable(src: Databases, srcObjects: Objects, dst: Databases, dstObjects: Objects,
                             a: string, name: string, version: Option<Version>)
    requires a in src && name in src[a]
  {
    var p := src[a][name];
    && (version.Some? ==> p.version == version.value)
    && KeyOf(a, p) in srcObjects
    && MayTake(Entries(dst, a), dstObjects, KeyOf(a, p), p, srcObjects[KeyOf(a, p)])
  }

  /** One round of the promotion loop: None is an error, otherwise whether it promoted. */
  method PromoteIfListed(src: Repository, dst: Repository, a: string, name: string, version: Option<Version>, works: bool)
    returns (did: Option<bool>)
    requires src != dst && src.Valid() && dst.Valid() && Concrete(a)
    modifies dst
    ensures dst.Valid()
    ensures PromotedEntry(Entries(old(dst.dbs), a), Entries(dst.dbs, a), name)
    ensures forall b | b != a :: Entries(dst.dbs, b) == Entries(old(dst.dbs), b)
    ensures forall b | b != a && Promoted(src.dbs, src.objects, old(dst.dbs), old(dst.objects), b, name, version) ::
      Promoted(src.dbs, src.objects, dst.dbs, dst.objects, b, name, version)
    ensures did == Some(true) ==> Promoted(src.dbs, src.objects, dst.dbs, dst.objects, a, name, version)
    ensures did.Some? ==> (did.value <==> a in src.dbs && name in src.dbs[a])
    ensures CopiesOnly(src.objects, old(dst.objects), dst.objects)
    ensures did == Some(true) || (works && a in src.dbs && name in src.dbs[a]) ==>
      (did.Some? <==> Promotable(src.dbs, src.objects, old(dst.dbs), old(dst.objects), a, name, version))
    ensures works && !(a in src.dbs && name in src.dbs[a]) ==> did.Some?
  {
    hide Integral, Concrete;
    did := None;
    var readable := *;
    if !readable && !works {
      return;
    }
    if !(a in src.dbs && name in src.dbs[a]) {
      return Some(false);
    }
    var p := src.dbs[a][name];
    if version.Some? && p.version != version.value {
      return;
    }
    EntryIsPresent(src.dbs, src.objects, a, name);
    hide PromotedEntry, MayTake;
    var done := PromoteOneArch(src, dst, a, p, works);
    if done {
      did := Some(true);
    }
  }

  /** Objects that are new in the target are copies of the source's. */
  ghost predicate CopiesOnly(src: Objects, before: Objects, after: Objects) {
    && (forall key | key in before :: key in after && after[key] == before[key])
    && (forall key | key in after && key !in before :: key in src && after[key] == src[key])
  }

  /** Promote the package from each architecture of the source tier that lists it. */
  method PromoteArches(src: Repository, dst: Repository, arches: seq<string>, name: string, version: Option<Version>,
                       works: bool) returns (ok: bool, promoted: seq<string>)
    requires src != dst && src.Valid() && dst.Valid()
    requires Distinct(arches) && forall a | a in arches :: Concrete(a)
    modifies dst
    ensures dst.Valid()
    ensures forall a :: PromotedEntry(Entries(old(dst.dbs), a), Entries(dst.dbs, a), name)
    ensures forall a | a in promoted :: a in arches
    ensures forall a | a in promoted :: a in src.dbs && name in src.dbs[a]
    ensures ok ==> forall a | a in arches && a in src.dbs && name in src.dbs[a] :: a in promoted
    ensures ok ==> forall a | a in promoted :: Promoted(src.dbs, src.objects, dst.dbs, dst.objects, a, name, version)
    ensures ok && promoted != [] ==> FirstListed(src.dbs, arches, name) == Some(src.dbs[promoted[0]][name])
    ensures ok || works ==> (ok <==> forall a | a in arches && a in src.dbs && name in src.dbs[a] ::
      Promotable(src.dbs, src.objects, old(dst.dbs), old(dst.objects), a, name, version))
  {
    hide Concrete, Integral, Promoted, PromotingUpTo, Promotable, CopiesOnly, FirstListed;
    ok, promoted := false, [];
    PromotingStarts(src.dbs, src.objects, dst.dbs, dst.objects, name, version);
    assert arches[..0] == [];
    CopyNothing(src.objects, dst.objects);
    for k := 0 to |arches|
      invariant dst.Valid() && CopiesOnly(src.objects, old(dst.objects), dst.objects)
      invariant PromotingUpTo(src.dbs, src.objects, old(dst.dbs), dst.dbs, dst.objects, arches[..k], promoted, name, version)
      invariant forall a | a in arches[..k] && a in src.dbs && name in src.dbs[a] :: a in promoted
      invariant forall a | a in promoted :: a in src.dbs && name in src.dbs[a]
      invariant promoted != [] ==> FirstListed(src.dbs, arches, name) == Some(src.dbs[promoted[0]][name])
      invariant forall a | a in promoted ::
        Promotable(src.dbs, src.objects, old(dst.dbs), old(dst.objects), a, name, version)
    {
      hide PromotedEntry;
      var a := arches[k];
      assert arches[..k + 1] == arches[..k] + [a] && a !in arches[..k];
      ghost var dbs, objects := dst.dbs, dst.objects;
      if a in src.dbs && name in src.dbs[a] {
        PromotingWaits(src.dbs, src.objects, old(dst.dbs), old(dst.objects), dbs, objects, arches[..k], a, promoted, name, version);
        if promoted == [] {
          assert forall j | 0 <= j < k :: arches[j] in arches[..k];
          FirstListedAt(src.dbs, arches, name, k);
        }
      }
      var did := PromoteIfListed(src, dst, a, name, version, works);
      CopyMore(src.objects, old(dst.objects), objects, dst.objects);
      PromotingOneMore(src.dbs, src.objects, old(dst.dbs), dbs, objects, dst.dbs, dst.objects, arches[..k], a, promoted,
                       did, name, version);
      if did.None? {
        PromotingMeans(src.dbs, src.objects, old(dst.dbs), dst.dbs, dst.objects, arches[..k + 1], promoted, name, version);
        return;
      }
      if did.value {
        promoted := promoted + [a];
      }
    }
    assert arches[..|arches|] == arches;
    PromotingMeans(src.dbs, src.objects, old(dst.dbs), dst.dbs, dst.objects, arches, promoted, name, version);
    ok := true;
  }

  lemma CopyNothing(src: Objects, objects: Objects)
    ensures CopiesOnly(src, objects, objects)
  {
  }

  lemma CopyMore(src: Objects, a: Objects, b: Objects, c: Objects)
    requires CopiesOnly(src, a, b) && CopiesOnly(src, b, c)
    ensures CopiesOnly(src, a, c)
  {
  }

  /** Until its turn comes, nothing changes for an architecture. */
  lemma PromotingWaits(src: Databases, srcObjects: Objects, start: Databases, startObjects: Objects, dst: Databases,
                       dstObjects: Objects, done: seq<string>, a: string, promoted: seq<string>, name: string,
                       version: Option<Version>)
    requires PromotingUpTo(src, srcObjects, start, dst, dstObjects, done, promoted, name, version) && a !in done
    requires CopiesOnly(srcObjects, startObjects, dstObjects) && a in src && name in src[a]
    ensures Promotable(src, srcObjects, dst, dstObjects, a, name, version)
       <==> Promotable(src, srcObjects, start, startObjects, a, name, version)
  {
    hide Promoted, Entries, PromotedEntry;
  }

  /** What holds after the architectures `done`, of which `promoted` were promoted. */
  ghost predicate PromotingUpTo(src: Databases, srcObjects: Objects, start: Databases, dst: Databases, dstObjects: Objects,
                                done: seq<string>, promoted: seq<string>, name: string, version: Option<Version>) {
    && (forall a :: PromotedEntry(Entries(start, a), Entries(dst, a), name))
    && (forall a | a !in done :: Entries(dst, a) == Entries(start, a))
    && (forall a | a in promoted :: a in done && Promoted(src, srcObjects, dst, dstObjects, a, name, version))
  }

  lemma PromotingStarts(src: Databases, srcObjects: Objects, dst: Databases, dstObjects: Objects,
                        name: string, version: Option<Version>)
    ensures PromotingUpTo(src, srcObjects, dst, dst, dstObjects, [], [], name, version)
  {
    hide Promoted;
  }

  lemma PromotingOneMore(src: Databases, srcObjects: Objects, start: Databases, dst: Databases, dstObjects: Objects,
                         after: Databases, afterObjects: Objects, done: seq<string>, a: string, promoted: seq<string>,
                         did: Option<bool>, name: string, version: Option<Version>)
    requires PromotingUpTo(src, srcObjects, start, dst, dstObjects, done, promoted, name, version) && a !in done
    requires PromotedEntry(Entries(dst, a), Entries(after, a), name)
    requires forall b | b != a :: Entries(after, b) == Entries(dst, b)
    requires forall b | b != a && Promoted(src, srcObjects, dst, dstObjects, b, name, version) ::
      Promoted(src, srcObjects, after, afterObjects, b, name, version)
    requires did == Some(true) ==> Promoted(src, srcObjects, after, afterObjects, a, name, version)
    ensures PromotingUpTo(src, srcObjects, start, after, afterObjects, done + [a],
                          if did == Some(true) then promoted + [a] else promoted, name, version)
  {
    hide Promoted, Entries, PromotedEntry;
    assert Entries(dst, a) == Entries(start, a);
  }

  lemma PromotingMeans(src: Databases, srcObjects: Objects, start: Databases, dst: Databases, dstObjects: Objects,
                       done: seq<string>, promoted: seq<string>, name: string, version: Option<Version>)
    requires PromotingUpTo(src, srcObjects, start, dst, dstObjects, done, promoted, name, version)
    ensures forall a :: PromotedEntry(Entries(start, a), Entries(dst, a), name)
    ensures forall a | a in promoted :: a in done && Promoted(src, srcObjects, dst, dstObjects, a, name, version)
  {
    hide Promoted, Entries, PromotedEntry;
  }

  /** Promote a package wherever the source tier lists it, then keep or drop it there. With
      `works`, exactly an unlisted package, or one the target may not take somewhere, is refused,
      and what is to be dropped goes, but only if the first listing is a shared one or the
      only one. */
  method PromotePackage(src: Repository, dst: Repository, declared: seq<string>, stored: seq<string>, name: string,
                        version: Option<Version>, keepsSource: bool, works: bool) returns (ok: bool, promoted: seq<string>)
    requires src != dst && src.Valid() && dst.Valid() && forall a | a in src.dbs :: a in stored
    modifies src, dst
    ensures src.Valid() && dst.Valid()
    ensures Dropped(old(src.dbs), src.dbs, name)
    ensures !ok || keepsSource ==> src.dbs == old(src.dbs) && src.objects == old(src.objects)
    ensures forall a :: PromotedEntry(Entries(old(dst.dbs), a), Entries(dst.dbs, a), name)
    ensures forall a | a in promoted :: a in old(src.dbs) && name in old(src.dbs)[a]
    ensures ok ==> promoted != [] && forall a | a in old(src.dbs) && name in old(src.dbs)[a] :: a in promoted
    ensures ok ==> forall a | a in promoted :: Promoted(old(src.dbs), old(src.objects), dst.dbs, dst.objects, a, name, version)
    ensures ok || works ==> (ok <==>
      && (exists a :: a in old(src.dbs) && name in old(src.dbs)[a])
      && forall a | a in old(src.dbs) && name in old(src.dbs)[a] ::
           Promotable(old(src.dbs), old(src.objects), old(dst.dbs), old(dst.objects), a, name, version))
    ensures ok && works && !keepsSource ==>
      ((forall a :: name !in Entries(src.dbs, a)) <==>
        old(src.dbs)[promoted[0]][name].arch == ANY || forall a | a in promoted :: a == promoted[0])
  {
    var arches := ConcreteArches(declared, stored);
    KnownArches(src.dbs, src.objects, declared, stored);
    ghost var dbs, objects := src.dbs, src.objects;
    hide ConcreteArches, Concrete, PromotedEntry, Promoted, Promotable, FirstListed, AskedOrder, TakesAllListings,
      Integral, Dropped, Entries;
    NothingDropped(src.dbs, name);
    ok, promoted := PromoteArches(src, dst, arches, name, version, works);
    ok := ok && promoted != [];
    if ok && !keepsSource {
      MovedExactly(dbs, objects, promoted, name);
      hide Integral, OneListing;
      DropFromSource(src, declared, stored, promoted, name, works);
    }
  }

  lemma NothingDropped(dbs: Databases, name: string)
    ensures Dropped(dbs, dbs, name)
  {
  }

  lemma MovedExactly(dbs: Databases, objects: Objects, promoted: seq<string>, name: string)
    requires Integral(dbs, objects) && promoted != []
    requires forall a :: a in promoted <==> a in dbs && name in dbs[a]
    ensures OneListing(dbs, Some(dbs[promoted[0]][name]), name) <==>
      dbs[promoted[0]][name].arch == ANY || forall a | a in promoted :: a == promoted[0]
  {
    assert promoted[0] in promoted;
    assert Present(objects, promoted[0], dbs[promoted[0]][name]);
  }

  /**
   * A move can leave a listing behind: of a package built for two architectures, only the first
   * listing is dropped.
   */
  lemma SecondBuildIsNotMoved() returns (dbs: Databases, objects: Objects, arches: seq<string>)
    ensures Integral(dbs, objects) && Distinct(arches) && arches == ["x86_64", "aarch64"]
    ensures forall a :: a in dbs && "foo" in dbs[a] <==> a in arches
    ensures FirstListed(dbs, arches, "foo") == Some(dbs["x86_64"]["foo"]) && dbs["x86_64"]["foo"].arch != ANY
  {
    var one := Package("foo", Version("1", 1.0), "foo-1-x86_64.pkg.tar.zst", "x86_64");
    var two := Package("foo", Version("1", 1.0), "foo-1-aarch64.pkg.tar.zst", "aarch64");
    dbs := map["x86_64" := map["foo" := one], "aarch64" := map["foo" := two]];
    objects := map[KeyOf("x86_64", one) := Blob(one, 0), KeyOf("aarch64", two) := Blob(two, 0)];
    arches := ["x86_64", "aarch64"];
    assert KeyOf("x86_64", one).dir != KeyOf("aarch64", two).dir;
    assert arches[0] == "x86_64" && arches[1] == "aarch64";
  }

  /** The promoted tier lists the source's package and serves the same bytes. */
  predicate Promoted(src: Databases, srcObjects: Objects, dst: Databases, dstObjects: Objects,
                     arch: string, name: string, version: Option<Version>) {
    && arch in src && name in src[arch] && name in Entries(dst, arch)
    && Entries(dst, arch)[name] == src[arch][name]
    && (version.Some? ==> src[arch][name].version == version.value)
    && var key := KeyOf(arch, src[arch][name]);
       key in srcObjects && key in dstObjects && dstObjects[key] == srcObjects[key]
  }

  lemma EntryIsPresent(dbs: Databases, objects: Objects, arch: string, name: string)
    requires Integral(dbs, objects) && arch in dbs && name in dbs[arch]
    ensures Present(objects, arch, dbs[arch][name]) && dbs[arch][name].name == name
  {
  }

  /** Best effort: a full removal, or else de-registration architecture by architecture. */
  method DropFromSource(src: Repository, declared: seq<string>, stored: seq<string>, promoted: seq<string>, name: string,
                        works: bool)
    requires src.Valid() && (forall a | a in src.dbs :: a in stored) && forall a | a in promoted :: Concrete(a)
    modifies src
    ensures src.Valid() && Dropped(old(src.dbs), src.dbs, name)
    ensures forall key | key in old(src.objects) && old(src.objects)[key].pkg.name != name ::
      key in src.objects && src.objects[key] == old(src.objects)[key]
    ensures works && (forall a | a in old(src.dbs) && name in old(src.dbs)[a] :: a in promoted) ==>
      ((forall a :: name !in Entries(src.dbs, a)) <==>
        OneListing(old(src.dbs), FirstListed(old(src.dbs), ConcreteArches(declared, stored), name), name))
  {
    ghost var dbs, objects := src.dbs, src.objects;
    hide Integral, Dropped, OneListing, FirstListed, ConcreteArches, IsRemoval, TakesAllListings;
    var removed, plan := RemovePkg(src, declared, stored, "", name, works);
    assert AskedOrder("", ConcreteArches(declared, stored)) == ConcreteArches(declared, stored);
    hide AskedOrder;
    if removed {
      if works {
        RemovedExactly(dbs, objects, src.dbs, plan.value, name);
      }
      return;
    }
    if works {
      if plan.Some? {
        FallbackIsShared(dbs, objects, plan.value, name);
      } else {
        NothingIsOneListing(dbs, name);
      }
    }
    ghost var before := src.dbs;
    DropEach(src, promoted, name, works);
    DroppedAgain(dbs, before, src.dbs, name);
    if works && forall a | a in dbs && name in dbs[a] :: a in promoted {
      DroppedFromAll(dbs, src.dbs, promoted, name);
    }
  }

  method DropEach(src: Repository, arches: seq<string>, name: string, works: bool)
    requires src.Valid() && forall a | a in arches :: Concrete(a)
    modifies src`dbs
    ensures src.Valid() && Dropped(old(src.dbs), src.dbs, name)
    ensures works ==> forall a | a in arches && a in old(src.dbs) :: name !in Entries(src.dbs, a)
  {
    for k := 0 to |arches|
      invariant src.Valid() && Dropped(old(src.dbs), src.dbs, name)
      invariant works ==> forall a | a in arches[..k] && a in old(src.dbs) :: name !in Entries(src.dbs, a)
    {
      hide Integral, Concrete, Dropped;
      ghost var before := src.dbs;
      assert arches[..k + 1] == arches[..k] + [arches[k]];
      assert [arches[k]][0] == arches[k];
      var _ := DropFrom(src, [arches[k]], name, works);
      StaysDropped(old(src.dbs), before, src.dbs, arches, k, name);
      DroppedAgain(old(src.dbs), before, src.dbs, name);
    }
    assert arches[..|arches|] == arches;
  }

  lemma StaysDropped(start: Databases, before: Databases, after: Databases, arches: seq<string>, k: nat, name: string)
    requires k < |arches| && Dropped(start, before, name) && Dropped(before, after, name)
    ensures forall a | a in arches[..k] && name !in Entries(before, a) :: name !in Entries(after, a)
    ensures arches[k] in before <==> arches[k] in start
  {
  }

  lemma DroppedFromAll(before: Databases, after: Databases, arches: seq<string>, name: string)
    requires Dropped(before, after, name)
    requires forall a | a in before && name in before[a] :: a in arches
    requires forall a | a in arches && a in before :: name !in Entries(after, a)
    ensures forall a :: name !in Entries(after, a)
  {
  }

  lemma NothingIsOneListing(dbs: Databases, name: string)
    ensures OneListing(dbs, None, name)
  {
  }

  /** The listing that is found first is shared, or the only one. */
  ghost predicate OneListing(dbs: Databases, first: Option<Package>, name: string) {
    first.None? || first.value.arch == ANY || forall a | a in dbs && name in dbs[a] :: a == first.value.arch
  }

  lemma RemovedExactly(before: Databases, objects: Objects, after: Databases, r: Removal, name: string)
    requires IsRemoval(before, objects, "", name, r) && Dropped(before, after, name)
    requires (forall a | a in r.arches :: name !in Entries(after, a)) <==> TakesAllListings(before, r, name)
    ensures (forall a :: name !in Entries(after, a)) <==> OneListing(before, Some(r.p), name)
  {
    assert forall a :: name in Entries(after, a) ==> a in r.arches;
    assert forall a :: name in Entries(before, a) ==> a in r.arches;
  }

  lemma FallbackIsShared(dbs: Databases, objects: Objects, r: Removal, name: string)
    requires Integral(dbs, objects) && IsRemoval(dbs, objects, "", name, r)
    requires !forall a | a in r.targets :: a in dbs
    ensures OneListing(dbs, Some(r.p), name)
  {
    var a :| a in dbs && name in dbs[a] && dbs[a][name] == r.p;
    assert Present(objects, a, r.p);
  }

  lemma DroppedAgain(a: Databases, b: Databases, c: Databases, name: string)
    requires Dropped(a, b, name) && Dropped(b, c, name)
    ensures Dropped(a, c, name)
  {
  }
}
