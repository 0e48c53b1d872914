/** The version gates that turn a database snapshot into a guarded batch item. */
module PublishGate {
  import opened Collections
  import opened Packages

  datatype Verdict = Refuse | AlreadyPublished | Publish(item: AddItem)

  function Guarded(pkg: Package, snapshot: Database): AddItem {
    AddItem(pkg, true, pkg.name, Current(snapshot, pkg.name), Some(IdentityOf(pkg)))
  }

  /** Uploads: older is an error, the same version is skipped, newer goes in. */
  function GateUpload(pkg: Package, snapshot: Database): Verdict {
    if pkg.name !in snapshot then Publish(Guarded(pkg, snapshot))
    else
      var c := VerCmp(pkg.version, snapshot[pkg.name].version);
      if c < 0 then Refuse else if c == 0 then AlreadyPublished else Publish(Guarded(pkg, snapshot))
  }

  /** Promotions: the same version may be registered again under the same file. */
  function GatePromotion(pkg: Package, target: Database): Verdict {
    if pkg.name !in target then Publish(Guarded(pkg, target))
    else
      var c := VerCmp(pkg.version, target[pkg.name].version);
      if c < 0 || (c == 0 && target[pkg.name].file != pkg.file) then Refuse
      else Publish(Guarded(pkg, target))
  }

  /** The item came out of a gate that read some database, however long ago. */
  ghost predicate Gated(item: AddItem) {
    || (exists snapshot: Database :: GateUpload(item.pkg, snapshot) == Publish(item))
    || (exists target: Database :: GatePromotion(item.pkg, target) == Publish(item))
  }

  /** `after` has every package of `before`, none at a lower version. */
  ghost predicate NoOlder(before: Database, after: Database) {
    forall name | name in before :: name in after && VerCmp(after[name].version, before[name].version) >= 0
  }

  lemma GatedItem(item: AddItem)
    requires Gated(item)
    ensures item.checkCurrent && item.expectedName == item.pkg.name
    ensures item.intended == Some(IdentityOf(item.pkg))
    ensures item.expectedCurrent.Some? ==> VerCmp(item.pkg.version, item.expectedCurrent.value.version) >= 0
  {
  }

  /** However old the gate's snapshot, the guard makes the committed batch safe. */
  lemma {:induction false} GatedBatchNeverDowngrades(before: Database, items: seq<AddItem>)
    requires forall i | 0 <= i < |items| :: Gated(items[i])
    requires ExpectationsHold(before, items)
    ensures NoOlder(before, Upsert(before, items))
  {
    hide Upsert, Gated;
    forall name | name in before
      ensures name in Upsert(before, items) && VerCmp(Upsert(before, items)[name].version, before[name].version) >= 0
    {
      UpsertEntry(before, items, name);
      if Upsert(before, items)[name] != before[name] {
        var i :| 0 <= i < |items| && items[i].pkg.name == name && Upsert(before, items)[name] == items[i].pkg;
        GatedItem(items[i]);
        assert ExpectationHolds(before, items[i]);
      }
    }
  }
}
