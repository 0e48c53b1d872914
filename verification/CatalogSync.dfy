/** The pin store and one sync of a source, as the code runs them. */
module CatalogSync {
  import opened Collections
  import opened CatalogPins

  class PinStore {
    var data: Pins
    ghost var disk: Pins

    ghost function State(): Store
      reads this
    {
      Store(data, disk)
    }

    constructor (ghost file: Pins, loaded: Pins)
      requires loaded == file
      ensures State() == Store(file, file)
    {
      data, disk := loaded, file;
    }

    /** Replace the file, which can fail before or after it took effect. */
    method SaveFile(works: bool) returns (ok: bool, ghost outcome: SaveOutcome)
      modifies this`disk
      ensures ok <==> outcome == Saved
      ensures disk == if outcome == NotReplaced then old(disk) else data
      ensures works ==> ok
    {
      ok := *;
      if ok || works {
        ok := true;
        outcome := Saved;
        disk := data;
      } else {
        ghost var replaced := *;
        outcome := if replaced then ReplacedButFailed else NotReplaced;
        disk := if replaced then data else disk;
      }
    }

    /** Save the changed pins, or put the old entry back. */
    method SaveOrRestore(name: string, before: Pin, existed: bool, works: bool, ghost was: Pins)
      returns (ok: bool, ghost outcome: SaveOutcome)
      requires existed <==> name in was
      requires existed ==> was[name] == before
      requires name in data && data == was[name := data[name]]
      modifies this
      ensures ok <==> outcome == Saved
      ensures State() == Save(Store(was, old(disk)), name, old(data)[name], outcome)
      ensures works ==> ok
    {
      ok, outcome := SaveFile(works);
      if !ok {
        if existed {
          data := data[name := before];
        } else {
          data := data - {name};
        }
        assert data == was;
      }
    }

    method PutPin(name: string, p: Pin, works: bool) returns (ok: bool, ghost outcome: SaveOutcome)
      modifies this
      ensures ok <==> outcome == Saved
      ensures State() == Put(old(State()), name, p, outcome)
      ensures works ==> ok
    {
      ghost var was := data;
      var before, existed := if name in data then data[name] else NO_PIN, name in data;
      var pin := p;
      if before.lastIssued > p.lastIssued {
        pin := p.(lastIssued := before.lastIssued);
      }
      data := data[name := pin];
      ok, outcome := SaveOrRestore(name, before, existed, works, was);
    }

    method RaiseFloor(name: string, t: int, now: int, works: bool) returns (ok: bool, ghost outcome: SaveOutcome)
      modifies this
      ensures ok == FloorRaised(old(State()), name, t, outcome)
      ensures State() == SetLastIssued(old(State()), name, t, now, outcome)
      ensures works ==> ok
    {
      ghost var was := data;
      var before, existed := if name in data then data[name] else NO_PIN, name in data;
      if t <= before.lastIssued {
        return true, NotReplaced;
      }
      data := data[name := before.(lastIssued := t, lastSeen := now)];
      ok, outcome := SaveOrRestore(name, before, existed, works, was);
    }
  }

  /** What came back: `keys` are the public keys under which the signature verifies. */
  datatype Response =
    | Unreachable
    | Undecodable
    | Envelope(legacy: bool, alg: string, signed: bool, keys: set<string>, payload: Option<Catalog>)

  class AyatoSource {
    const name: string
    const maxAge: int
    const insecure: bool
    const trustOnFirstUse: bool
    const pinnedKey: string
    const pins: PinStore
    var lastIssued: int
    var expiresAt: int
    var lastVerified: bool
    var served: Option<Served>

    ghost predicate Valid()
      reads this, pins
    {
      && FileCovers(pins.State())
      && NO_TIME <= lastIssued <= Floor(pins.data, name)
      && (pinnedKey != "" ==> 0 < maxAge)
      && (served.Some? && served.value.verified ==> served.value.c.issuedAt <= Floor(pins.data, name))
      && (lastVerified ==>
           && served.Some? && served.value.verified
           && served.value.c.issuedAt == lastIssued && served.value.c.expiresAt == expiresAt)
    }

    /** The floor is restored from the pins, so it survives a restart. */
    constructor (name: string, maxAge: int, insecure: bool, trustOnFirstUse: bool, pinnedKey: string, pins: PinStore)
      requires FileCovers(pins.State()) && (pinnedKey != "" ==> 0 < maxAge)
      ensures Valid() && this.name == name && this.pins == pins && served == None
      ensures lastIssued == Floor(pins.data, name)
    {
      this.name, this.maxAge, this.insecure, this.trustOnFirstUse := name, maxAge, insecure, trustOnFirstUse;
      this.pinnedKey, this.pins := pinnedKey, pins;
      lastIssued := if name in pins.data then pins.data[name].lastIssued else NO_TIME;
      expiresAt, lastVerified, served := NO_TIME, false, None;
      new;
      assert NO_TIME <= Floor(pins.State().data, name);
    }

    /** The key catalogs must be signed with; on first contact, and only if that is
        allowed, the offered one is pinned. With `works`, the pin reaches the file. */
    method ResolveKey(offered: Option<string>, keyId: string, now: int, works: bool) returns (key: Option<string>)
      requires Valid()
      modifies pins
      ensures Valid()
      ensures pinnedKey != "" ==> key == Some(pinnedKey) && pins.State() == old(pins.State())
      ensures pinnedKey == "" && !trustOnFirstUse ==> key == None && pins.State() == old(pins.State())
      ensures var known := PinOf(old(pins.data), name).pubKey;
        known != "" ==> pins.State() == old(pins.State())
                        && (pinnedKey == "" && trustOnFirstUse && 0 < maxAge ==> key == Some(known))
      ensures key.Some? ==> 0 < maxAge && key.value != ""
      ensures pinnedKey == "" && key.Some? ==> PinOf(pins.data, name).pubKey == key.value
      ensures pinnedKey == "" && key.Some? && PinOf(old(pins.data), name).pubKey == "" ==> offered == key
      ensures works && trustOnFirstUse && 0 < maxAge && offered.Some? && offered.value != "" ==> key.Some?
      ensures forall other | other != name :: PinOf(pins.data, other) == PinOf(old(pins.data), other)
      ensures Floor(pins.data, name) >= old(Floor(pins.data, name))
    {
      if pinnedKey != "" {
        return Some(pinnedKey);
      }
      if !trustOnFirstUse {
        return None;
      }
      if name in pins.data && pins.data[name].pubKey != "" {
        return if 0 < maxAge then Some(pins.data[name].pubKey) else None;
      }
      if offered.None? || offered.value == "" || maxAge <= 0 {
        return None;
      }
      var p := Pin(offered.value, keyId, now, now, NO_TIME);
      PutKeepsFloors(pins.State(), name, p, Saved, name);
      PutKeepsFloors(pins.State(), name, p, NotReplaced, name);
      PutKeepsFloors(pins.State(), name, p, ReplacedButFailed, name);
      hide FileCovers;
      var ok, outcome := pins.PutPin(name, p, works);
      key := if ok then Some(offered.value) else None;
    }

    /** The key a catalog must be signed with can be had: configured, or pinned, or offered on first contact. */
    predicate HasKey(response: Response, offered: Option<string>)
      reads this, pins
      requires response.Envelope?
    {
      var known := PinOf(pins.data, name).pubKey;
      if pinnedKey != "" then pinnedKey in response.keys
      else
        trustOnFirstUse && 0 < maxAge
        && if known != "" then known in response.keys
           else offered.Some? && offered.value != "" && offered.value in response.keys
    }

    /** Only a verified, fresh catalog whose floor reached the file replaces the served one. With
        `works`, every such catalog does. */
    method Sync(response: Response, offered: Option<string>, keyId: string, now: int, works: bool) returns (ok: bool)
      requires Valid() && now > MAX_DURATION && maxAge + LEEWAY < MAX_DURATION
      modifies this, pins
      ensures Valid()
      ensures !ok ==> unchanged(this)
      ensures insecure ==> (ok <==> response.Envelope? && response.payload.Some?)
      ensures insecure && ok ==> lastIssued == old(lastIssued) && !lastVerified
      ensures insecure ==> pins.State() == old(pins.State())
      ensures ok ==>
        && response.Envelope? && response.payload.Some?
        && served == Some(Served(response.payload.value, !insecure))
        && expiresAt == response.payload.value.expiresAt
      ensures !insecure && (ok || works) ==>
        (ok <==>
          && response.Envelope? && response.payload.Some?
          && !response.legacy && response.alg == "ed25519" && response.signed && old(HasKey(response, offered))
          && old(lastIssued) < response.payload.value.issuedAt
          && now - maxAge - LEEWAY <= response.payload.value.issuedAt <= now + LEEWAY
          && (response.payload.value.expiresAt == NO_TIME || now <= response.payload.value.expiresAt + LEEWAY))
      ensures !insecure && ok ==>
        && lastIssued == response.payload.value.issuedAt <= Floor(pins.disk, name) && lastVerified
        && (if pinnedKey != "" then pinnedKey else PinOf(pins.data, name).pubKey) in response.keys
      ensures PinOf(old(pins.data), name).pubKey != "" ==>
        PinOf(pins.data, name).pubKey == PinOf(old(pins.data), name).pubKey
    {
      if !response.Envelope? {
        return false;
      }
      if insecure {
        if response.payload.None? {
          return false;
        }
        served := Some(Served(response.payload.value, false));
        lastVerified := false;
        expiresAt := response.payload.value.expiresAt;
        return true;
      }
      var key := ResolveKey(offered, keyId, now, works);
      if key.None? || response.legacy || response.alg != "ed25519" || !response.signed {
        return false;
      }
      if key.value !in response.keys || response.payload.None? {
        return false;
      }
      var c := response.payload.value;
      FreshExactly(c, now, maxAge, lastIssued);
      hide CheckFreshness;
      if CheckFreshness(c, now, maxAge, lastIssued).Some? {
        return false;
      }
      ok := PersistFloor(c, now, works);
      if !ok {
        return false;
      }
      assert Floor(pins.data, name) <= Floor(pins.State().disk, name) by {
        assert FileCovers(pins.State());
      }
      hide FileCovers;
      served := Some(Served(c, true));
      lastVerified := true;
      expiresAt := c.expiresAt;
      lastIssued := if c.issuedAt > lastIssued then c.issuedAt else lastIssued;
    }

    method PersistFloor(c: Catalog, now: int, works: bool) returns (ok: bool)
      requires Valid()
      modifies pins
      ensures Valid() && (ok ==> c.issuedAt <= Floor(pins.data, name)) && (works ==> ok)
      ensures PinOf(pins.data, name).pubKey == PinOf(old(pins.data), name).pubKey
    {
      RaisingKeepsFloors(pins.State(), name, c.issuedAt, now, Saved, name);
      RaisingKeepsFloors(pins.State(), name, c.issuedAt, now, NotReplaced, name);
      RaisingKeepsFloors(pins.State(), name, c.issuedAt, now, ReplacedButFailed, name);
      hide FileCovers;
      var saved, outcome := pins.RaiseFloor(name, c.issuedAt, now, works);
      ok := saved;
    }
  }
}
