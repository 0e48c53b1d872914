/** The persisted rollback floor and the freshness rules for signed catalogs. */
module CatalogPins {
  import opened Collections

  // -------------------------------------------------------------------------- catalogs

  /** Moments in nanoseconds; 0 is the zero time, which stands for "none". */
  const NO_TIME: int := 0

  /** What the clock difference of two moments can be at most. */
  const MAX_DURATION: int := 0x7fff_ffff_ffff_ffff

  const LEEWAY: int := 60_000_000_000

  datatype Catalog = Catalog(issuedAt: int, expiresAt: int, body: nat)

  datatype Served = Served(c: Catalog, verified: bool)

  datatype Rejection = MissingIssuedAt | FromTheFuture | Expired | TooOld | Rollback

  /** The checks on the signed moments, in the order in which they are made. */
  function CheckFreshness(c: Catalog, now: int, maxAge: int, lastIssued: int): Option<Rejection> {
    if c.issuedAt == NO_TIME then Some(MissingIssuedAt)
    else if c.issuedAt > now + LEEWAY then Some(FromTheFuture)
    else if c.expiresAt != NO_TIME && now > c.expiresAt + LEEWAY then Some(Expired)
    else if maxAge > 0 && now - c.issuedAt > maxAge + LEEWAY then Some(TooOld)
    else if lastIssued != NO_TIME && c.issuedAt <= lastIssued then Some(Rollback)
    else None
  }

  /** A clock that is past the longest duration, and an age limit below it. */
  predicate SaneClock(now: int, maxAge: int) {
    now > MAX_DURATION && 0 < maxAge && maxAge + LEEWAY < MAX_DURATION
  }

  /** Exactly those catalogs pass that are newer than the floor, issued within the allowed age and not
      in the future, and not expired, each up to the leeway. */
  lemma FreshExactly(c: Catalog, now: int, maxAge: int, lastIssued: int)
    requires SaneClock(now, maxAge) && lastIssued >= NO_TIME
    ensures CheckFreshness(c, now, maxAge, lastIssued).None? <==>
      && lastIssued < c.issuedAt
      && now - maxAge - LEEWAY <= c.issuedAt <= now + LEEWAY
      && (c.expiresAt == NO_TIME || now <= c.expiresAt + LEEWAY)
  {
  }

  // ------------------------------------------------------------------------------ pins

  datatype Pin = Pin(pubKey: string, keyId: string, firstSeen: int, lastSeen: int, lastIssued: int)

  const NO_PIN: Pin := Pin("", "", NO_TIME, NO_TIME, NO_TIME)

  type Pins = map<string, Pin>

  /** The store in memory and the file it was last written to. */
  datatype Store = Store(data: Pins, disk: Pins)

  /** How writing the file can end: an error does not tell whether the file was replaced. */
  datatype SaveOutcome = Saved | NotReplaced | ReplacedButFailed

  function PinOf(pins: Pins, name: string): Pin {
    if name in pins then pins[name] else NO_PIN
  }

  /** Change one pin and write the file; on an error the memory is as before. */
  function Save(s: Store, name: string, p: Pin, outcome: SaveOutcome): Store {
    var changed := s.data[name := p];
    Store(if outcome == Saved then changed else s.data, if outcome == NotReplaced then s.disk else changed)
  }

  /** A new pin never lowers the floor. */
  function Repinned(pins: Pins, name: string, p: Pin): Pin {
    if PinOf(pins, name).lastIssued > p.lastIssued then p.(lastIssued := PinOf(pins, name).lastIssued) else p
  }

  function Put(s: Store, name: string, p: Pin, outcome: SaveOutcome): Store {
    Save(s, name, Repinned(s.data, name, p), outcome)
  }

  function SetLastIssued(s: Store, name: string, t: int, now: int, outcome: SaveOutcome): Store {
    var p := PinOf(s.data, name);
    if t <= p.lastIssued then s else Save(s, name, p.(lastIssued := t, lastSeen := now), outcome)
  }

  /** Whether raising the floor reports success. */
  function FloorRaised(s: Store, name: string, t: int, outcome: SaveOutcome): bool {
    t <= PinOf(s.data, name).lastIssued || outcome == Saved
  }

  // ------------------------------------------------------------------- what writes keep

  function Floor(pins: Pins, name: string): int {
    PinOf(pins, name).lastIssued
  }

  /** The file never holds a lower floor than the memory. */
  ghost predicate FileCovers(s: Store) {
    forall name :: NO_TIME <= Floor(s.data, name) <= Floor(s.disk, name)
  }

  /** No way a write can end lowers a floor in memory or uncovers the file. */
  lemma PutKeepsFloors(s: Store, name: string, p: Pin, outcome: SaveOutcome, other: string)
    requires FileCovers(s) && p.lastIssued >= NO_TIME
    ensures FileCovers(Put(s, name, p, outcome))
    ensures Floor(Put(s, name, p, outcome).data, other) >= Floor(s.data, other)
  {
    var r := Put(s, name, p, outcome);
    forall n ensures NO_TIME <= Floor(r.data, n) <= Floor(r.disk, n) {
      assert NO_TIME <= Floor(s.data, n) <= Floor(s.disk, n);
    }
  }

  lemma RaisingKeepsFloors(s: Store, name: string, t: int, now: int, outcome: SaveOutcome, other: string)
    requires FileCovers(s)
    ensures FileCovers(SetLastIssued(s, name, t, now, outcome))
    ensures Floor(SetLastIssued(s, name, t, now, outcome).data, other) >= Floor(s.data, other)
    ensures FloorRaised(s, name, t, outcome) ==> Floor(SetLastIssued(s, name, t, now, outcome).data, name) >= t
  {
    var r := SetLastIssued(s, name, t, now, outcome);
    forall n ensures NO_TIME <= Floor(r.data, n) <= Floor(r.disk, n) {
      assert NO_TIME <= Floor(s.data, n) <= Floor(s.disk, n);
    }
  }

  // --------------------------------------------------- when the file's floor falls

  /** Raising a floor lowers one in the file exactly when it rewrites the file from a memory that is behind it. */
  lemma RaisingLowersFileFloor(s: Store, name: string, t: int, now: int, outcome: SaveOutcome, other: string)
    ensures Floor(SetLastIssued(s, name, t, now, outcome).disk, other) < Floor(s.disk, other)
       <==> t > Floor(s.data, name) && outcome != NotReplaced
            && (if other == name then t else Floor(s.data, other)) < Floor(s.disk, other)
  {
    assert other in s.data[name := PinOf(s.data, name)] <==> other == name || other in s.data;
  }

  /** And so does a new pin. */
  lemma PinningLowersFileFloor(s: Store, name: string, p: Pin, outcome: SaveOutcome, other: string)
    ensures Floor(Put(s, name, p, outcome).disk, other) < Floor(s.disk, other)
       <==> outcome != NotReplaced
            && (if other == name && p.lastIssued > Floor(s.data, name) then p.lastIssued else Floor(s.data, other))
               < Floor(s.disk, other)
  {
    assert other in s.data[name := p] <==> other == name || other in s.data;
  }

  /**
   * It does happen: when the file was replaced but the write
   * still failed, the memory forgets the pin and the next write of another one drops it.
   */
  lemma FileFloorCanFall(now: int)
    requires now > NO_TIME
    ensures var s0 := Store(map[], map[]);
      var s1 := SetLastIssued(s0, "a", now, now, ReplacedButFailed);
      var s2 := SetLastIssued(s1, "b", now, now, Saved);
      && FileCovers(s0) && Floor(s1.disk, "a") == now && Floor(s2.disk, "a") == NO_TIME
  {
    var p := NO_PIN.(lastIssued := now, lastSeen := now);
    var s0 := Store(map[], map[]);
    var s1 := SetLastIssued(s0, "a", now, now, ReplacedButFailed);
    assert "b" !in s1.data && s1.data == map[];
    var s2 := SetLastIssued(s1, "b", now, now, Saved);
    assert s2.disk == map["b" := p];
    assert "a" != "b";
  }
}
