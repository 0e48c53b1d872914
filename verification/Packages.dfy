/** Packages, repository databases and the mutations a transaction may apply to one. */
module Packages {
  import opened Collections

  /** A package version. `rank` places its text in the version order: a total
      preorder on countably many texts is always the order of such ranks. */
  datatype Version = Version(text: string, rank: real)

  /** The three-way comparison of pacman, of which only the sign matters. */
  function VerCmp(a: Version, b: Version): (c: int) {
    if a.rank < b.rank then -1 else if a.rank > b.rank then 1 else 0
  }

  /** What one database entry records, and equally what one package file says. */
  datatype Package = Package(name: string, version: Version, file: string, arch: string)

  type Database = map<string, Package>

  /** The identity a conditional update compares: version and file name. */
  datatype Identity = Identity(version: Version, file: string)

  function IdentityOf(p: Package): Identity {
    Identity(p.version, p.file)
  }

  /** One package of a batch, with the optional guard of a conditional publish. */
  datatype AddItem = AddItem(
    pkg: Package,
    checkCurrent: bool,
    expectedName: string,
    expectedCurrent: Option<Identity>,
    intended: Option<Identity>)

  datatype Mutation =
    | AddBatch(items: seq<AddItem>)
    | Remove(name: string, expected: Option<Identity>)

  /** What a mutation did to its working copy: refused, left every archive as
      it was fetched, or had the tool rewrite the database and its siblings. */
  datatype Outcome = Rejected | Untouched | Rewritten(db: Database)

  function Current(db: Database, name: string): Option<Identity> {
    if name in db then Some(IdentityOf(db[name])) else None
  }

  predicate ExpectationHolds(db: Database, item: AddItem) {
    var current := Current(db, item.expectedName);
    || (current.Some? && item.intended.Some? && current == item.intended)
    || current == item.expectedCurrent
  }

  predicate ExpectationsHold(db: Database, items: seq<AddItem>) {
    forall i | 0 <= i < |items| && items[i].checkCurrent :: ExpectationHolds(db, items[i])
  }

  function Upsert(db: Database, items: seq<AddItem>): Database {
    if items == [] then db
    else Upsert(db, items[..|items| - 1])[items[|items| - 1].pkg.name := items[|items| - 1].pkg]
  }

  function OrEmpty(current: Option<Database>): Database {
    if current.Some? then current.value else map[]
  }

  /** `current` is None when no database object exists yet. */
  function Mutate(m: Mutation, current: Option<Database>): Outcome {
    match m
    case AddBatch(items) =>
      if ExpectationsHold(OrEmpty(current), items)
      then Rewritten(Upsert(OrEmpty(current), items))
      else Rejected
    case Remove(name, expected) =>
      if current.None? then Rejected
      else if name !in current.value then Untouched
      else if expected.Some? && Current(current.value, name) != expected then Rejected
      else Rewritten(current.value - {name})
  }

  /** The database a mutation commits over `current`, or None when it refuses. */
  function Effect(m: Mutation, current: Option<Database>): Option<Database> {
    match Mutate(m, current)
    case Rejected => None
    case Untouched => current
    case Rewritten(db) => Some(db)
  }

  /** The identity listed under `name`, if any. */
  predicate Lists(db: Database, name: string, identity: Option<Identity>) {
    match identity
    case None => name !in db
    case Some(found) => name in db && db[name].version == found.version && db[name].file == found.file
  }

  /**
   * A batch is refused exactly over one of its guards, which is met by what the caller expected or,
   * after an earlier attempt, by what it intended; a removal exactly without a database, or over an
   * entry other than the expected one.
   */
  lemma RefusedExactly(m: Mutation, current: Option<Database>)
    ensures m.AddBatch? ==> (Effect(m, current).None? <==>
      exists i :: 0 <= i < |m.items| && m.items[i].checkCurrent
        && !Lists(OrEmpty(current), m.items[i].expectedName, m.items[i].expectedCurrent)
        && !(m.items[i].intended.Some? && Lists(OrEmpty(current), m.items[i].expectedName, m.items[i].intended)))
    ensures m.Remove? ==> (Effect(m, current).None? <==>
      current.None? || (m.expected.Some? && m.name in current.value && !Lists(current.value, m.name, m.expected)))
  {
    if m.AddBatch? {
      var db := OrEmpty(current);
      forall i | 0 <= i < |m.items|
        ensures ExpectationHolds(db, m.items[i]) <==>
          Lists(db, m.items[i].expectedName, m.items[i].expectedCurrent)
          || (m.items[i].intended.Some? && Lists(db, m.items[i].expectedName, m.items[i].intended))
      {
      }
    }
  }

  lemma {:induction false} UpsertEntry(db: Database, items: seq<AddItem>, name: string)
    ensures name in Upsert(db, items) <==> name in db || exists i :: 0 <= i < |items| && items[i].pkg.name == name
    ensures name in Upsert(db, items) && (forall i | 0 <= i < |items| :: items[i].pkg.name != name)
            ==> Upsert(db, items)[name] == db[name]
    ensures name in Upsert(db, items)
            ==> (name in db && Upsert(db, items)[name] == db[name]
                 && forall i | 0 <= i < |items| :: items[i].pkg.name != name)
                || exists i :: 0 <= i < |items| && items[i].pkg.name == name && Upsert(db, items)[name] == items[i].pkg
  {
    if items != [] {
      var last := |items| - 1;
      UpsertEntry(db, items[..last], name);
      if items[last].pkg.name == name {
        assert Upsert(db, items)[name] == items[last].pkg;
      }
      forall i | 0 <= i < last ensures items[..last][i] == items[i] {}
    }
  }

  /** The last package of a name in a batch is the one its entry holds. */
  lemma {:induction false} UpsertHoldsLast(db: Database, items: seq<AddItem>, i: nat)
    requires i < |items| && forall j | i < j < |items| :: items[j].pkg.name != items[i].pkg.name
    ensures items[i].pkg.name in Upsert(db, items) && Upsert(db, items)[items[i].pkg.name] == items[i].pkg
  {
    var last := |items| - 1;
    if i < last {
      var front := items[..last];
      forall j | i <= j < last ensures front[j] == items[j] {}
      UpsertHoldsLast(db, front, i);
    }
  }

  /** Entries a batch names do not depend on what was there before. */
  lemma {:induction false} UpsertDetermined(db: Database, db': Database, items: seq<AddItem>, i: nat)
    requires i < |items|
    ensures var name := items[i].pkg.name;
      name in Upsert(db, items) && name in Upsert(db', items) && Upsert(db, items)[name] == Upsert(db', items)[name]
  {
    var last := |items| - 1;
    if items[i].pkg.name != items[last].pkg.name {
      assert items[..last][i] == items[i];
      UpsertDetermined(db, db', items[..last], i);
    }
  }

  /** Repeating a batch changes nothing. */
  lemma {:induction false} UpsertTwice(db: Database, items: seq<AddItem>)
    ensures Upsert(Upsert(db, items), items) == Upsert(db, items)
  {
    var once := Upsert(db, items);
    hide Upsert;
    forall name ensures name in Upsert(once, items) <==> name in once {
      UpsertEntry(db, items, name);
      UpsertEntry(once, items, name);
    }
    forall name | name in once ensures Upsert(once, items)[name] == once[name] {
      UpsertEntry(once, items, name);
      if i :| 0 <= i < |items| && items[i].pkg.name == name {
        UpsertDetermined(db, once, items, i);
      }
    }
  }

  ghost predicate DistinctNames(items: seq<AddItem>) {
    forall i, j | 0 <= i < j < |items| :: items[i].pkg.name != items[j].pkg.name
  }

  /** Every guard is on its own package and takes that package for the intended outcome. */
  ghost predicate GuardsItself(items: seq<AddItem>) {
    forall i | 0 <= i < |items| && items[i].checkCurrent ::
      items[i].expectedName == items[i].pkg.name
      && items[i].intended == Some(Identity(items[i].pkg.version, items[i].pkg.file))
  }

  /**
   * A mutation repeated over its own outcome has no further effect. Only a batch that names a
   * package twice, or guards something other than its own packages, may be refused instead.
   */
  lemma EffectTwice(m: Mutation, current: Option<Database>, db: Database)
    requires Effect(m, current) == Some(db)
    ensures m.Remove? ==> Effect(m, Some(db)) == Some(db)
    ensures m.AddBatch? && DistinctNames(m.items) && GuardsItself(m.items) ==> Effect(m, Some(db)) == Some(db)
    ensures Effect(m, Some(db)).None? || Effect(m, Some(db)) == Some(db)
  {
    if m.AddBatch? {
      UpsertTwice(OrEmpty(current), m.items);
      if DistinctNames(m.items) && GuardsItself(m.items) {
        forall i | 0 <= i < |m.items| && m.items[i].checkCurrent ensures ExpectationHolds(db, m.items[i]) {
          UpsertHoldsLast(OrEmpty(current), m.items, i);
        }
      }
    }
  }
}
