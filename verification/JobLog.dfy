/** The append-only, truncating log buffer of a build job. */
module JobLog {
  import opened Text

  /** The marker that ends a truncated log, itself cut to the cap. */
  function Marker(maxBytes: nat): (m: string)
    ensures |m| <= maxBytes
  {
    var text := "\n--- log truncated (max " + Digits(maxBytes) + " bytes) ---\n";
    if |text| > maxBytes then text[..maxBytes] else text
  }

  datatype Log = Log(bytes: string, truncated: bool, closed: bool)

  const EMPTY_LOG: Log := Log("", false, false)

  /** What the buffer must hold once `written` was written to it while open: all of
      it, or, past the cap, its longest allowed prefix and the marker. */
  function Capped(maxBytes: int, written: string): string {
    if maxBytes <= 0 then written
    else Cut(maxBytes - |Marker(maxBytes)|, Marker(maxBytes), written)
  }

  function Cut(limit: nat, tail: string, written: string): string {
    if |written| <= limit then written else written[..limit] + tail
  }

  predicate Overflows(maxBytes: int, written: string) {
    maxBytes > 0 && |written| > maxBytes - |Marker(maxBytes)|
  }

  /** The state that holds the text `written` while open. */
  ghost predicate Holds(maxBytes: int, log: Log, written: string) {
    log.bytes == Capped(maxBytes, written) && log.truncated == Overflows(maxBytes, written)
  }

  /** One write, as the buffer performs it. */
  function AfterWrite(maxBytes: int, log: Log, p: string): Log
    requires maxBytes > 0 && !log.truncated ==> |log.bytes| <= maxBytes - |Marker(maxBytes)|
  {
    if log.closed || log.truncated then log
    else if maxBytes <= 0 then log.(bytes := log.bytes + p)
    else Appended(maxBytes - |Marker(maxBytes)|, Marker(maxBytes), log, p)
  }

  function Appended(limit: nat, tail: string, log: Log, p: string): Log
    requires |log.bytes| <= limit
  {
    var remaining := limit - |log.bytes|;
    if |p| <= remaining then log.(bytes := log.bytes + p)
    else log.(bytes := log.bytes + p[..remaining] + tail, truncated := true)
  }

  /** Nothing is added to what is already cut. */
  lemma CutIsFinal(limit: nat, tail: string, written: string, p: string)
    requires |written| > limit
    ensures Cut(limit, tail, written + p) == Cut(limit, tail, written)
  {
    assert (written + p)[..limit] == written[..limit];
  }

  lemma AppendedIsCut(limit: nat, tail: string, log: Log, p: string)
    requires |log.bytes| <= limit && !log.truncated
    ensures Appended(limit, tail, log, p)
         == log.(bytes := Cut(limit, tail, log.bytes + p), truncated := |log.bytes + p| > limit)
  {
    if |log.bytes + p| > limit {
      assert (log.bytes + p)[..limit] == log.bytes + p[..limit - |log.bytes|];
    }
  }

  lemma AppendedExtends(limit: nat, tail: string, log: Log, p: string)
    requires |log.bytes| <= limit
    ensures log.bytes <= Appended(limit, tail, log, p).bytes
  {
  }

  /** A write extends what is held exactly by what it wrote. */
  lemma WriteHolds(maxBytes: int, log: Log, written: string, p: string)
    requires Holds(maxBytes, log, written) && !log.closed
    ensures Holds(maxBytes, AfterWrite(maxBytes, log, p), written + p)
    ensures log.bytes <= AfterWrite(maxBytes, log, p).bytes
  {
    hide Marker, Appended;
    if maxBytes > 0 {
      var tail := Marker(maxBytes);
      var limit := maxBytes - |tail|;
      if |written| > limit {
        CutIsFinal(limit, tail, written, p);
        hide Cut;
      } else {
        assert log.bytes == written;
        AppendedIsCut(limit, tail, log, p);
        AppendedExtends(limit, tail, log, p);
        hide Cut;
      }
    }
  }

  /** A truncated log fills the cap exactly; an untruncated one fits below it. */
  lemma CappedFillsExactly(maxBytes: int, written: string)
    requires maxBytes > 0
    ensures |Capped(maxBytes, written)| <= maxBytes
    ensures Overflows(maxBytes, written) ==> |Capped(maxBytes, written)| == maxBytes
    ensures !Overflows(maxBytes, written) ==> Capped(maxBytes, written) == written
  {
    hide Marker;
  }

  /** A truncated log is the beginning of what was written and then the marker, which names the cap
      and is itself cut where the cap is too small for it. */
  lemma TruncatedNamesTheCap(maxBytes: int, written: string)
    requires maxBytes > 0 && Overflows(maxBytes, written)
    ensures var marker := "\n--- log truncated (max " + Digits(maxBytes) + " bytes) ---\n";
      if |marker| <= maxBytes then Capped(maxBytes, written) == written[..maxBytes - |marker|] + marker
      else Capped(maxBytes, written) == marker[..maxBytes]
  {
    hide Digits;
  }

  class Buffer {
    const maxBytes: int
    var buf: string
    var truncated: bool
    var closed: bool
    /** Everything written before the buffer was closed. */
    ghost var written: string

    function State(): Log
      reads this
    {
      Log(buf, truncated, closed)
    }

    ghost predicate Valid()
      reads this
    {
      Holds(maxBytes, State(), written)
    }

    constructor (maxBytes: int)
      ensures Valid() && this.maxBytes == maxBytes && State() == EMPTY_LOG && written == ""
    {
      this.maxBytes := maxBytes;
      buf, truncated, closed, written := "", false, false, "";
    }

    /** Never fails, and always claims to have taken everything. */
    method Write(p: string) returns (n: nat)
      requires Valid()
      modifies this`buf, this`truncated, this`written
      ensures Valid() && n == |p|
      ensures written == if closed then old(written) else old(written) + p
      ensures State() == AfterWrite(maxBytes, old(State()), p)
    {
      n := |p|;
      if !closed {
        WriteHolds(maxBytes, State(), written, p);
        written := written + p;
      }
      if closed || truncated {
        return;
      }
      if maxBytes <= 0 {
        buf := buf + p;
        return;
      }
      var marker := Marker(maxBytes);
      var remaining := maxBytes - |marker| - |buf|;
      if |p| <= remaining {
        buf := buf + p;
        return;
      }
      if remaining > 0 {
        buf := buf + p[..remaining];
      }
      buf := buf + marker;
      truncated := true;
    }

    method Close()
      requires Valid()
      modifies this`closed
      ensures Valid() && State() == old(State()).(closed := true)
    {
      closed := true;
    }

    /** The bytes from `offset` on, the total length, and whether that was all. */
    method BytesFrom(offset: int) returns (data: string, total: nat, done: bool)
      ensures total == |buf| && done == closed
      ensures data == buf[if offset < 0 then 0 else if offset > |buf| then |buf| else offset..]
    {
      var from := if offset < 0 then 0 else if offset > |buf| then |buf| else offset;
      return buf[from..], |buf|, closed;
    }
  }
}
