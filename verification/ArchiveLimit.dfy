/**
 The byte ceiling on an output archive: how large it is, and the reader that
 enforces it. The ceiling is computed in 64-bit arithmetic, written out here as
 wrapping operations.
 */
module ArchiveLimit {
  import opened Prelude
  import opened Ustar

  const ENTRY_ALLOWANCE := 4096
  const FIXED_ALLOWANCE := 0x10_0000

  /** outputArchiveByteLimit. */
  function ByteLimit(diskLimit: int, maxEntries: int): Option<int>
  {
    if diskLimit <= 0 || maxEntries <= 0 then None
    else if maxEntries > Wrap(MAX_INT64 - FIXED_ALLOWANCE) / ENTRY_ALLOWANCE then None
    else
      var overhead := Wrap(Wrap(maxEntries * ENTRY_ALLOWANCE) + FIXED_ALLOWANCE);
      if diskLimit > Wrap(MAX_INT64 - overhead) then None
      else Some(Wrap(diskLimit + overhead))
  }

  /** The ceiling exists exactly when the limits are positive and their true sum is an int64, and
      then it is that sum: no intermediate result wraps. */
  lemma CeilingIsExact(diskLimit: int, maxEntries: int)
    requires diskLimit <= MAX_INT64 && maxEntries <= MAX_INT64
    ensures var ceiling := diskLimit + maxEntries * 4096 + 1048576;
            var representable := diskLimit > 0 && maxEntries > 0 && ceiling <= MAX_INT64;
            ByteLimit(diskLimit, maxEntries) == (if representable then Some(ceiling) else None)
  {
    WrapExact(MAX_INT64 - FIXED_ALLOWANCE);
    if diskLimit > 0 && maxEntries > 0 && maxEntries * ENTRY_ALLOWANCE + FIXED_ALLOWANCE <= MAX_INT64 {
      WrapExact(maxEntries * ENTRY_ALLOWANCE);
      WrapExact(maxEntries * ENTRY_ALLOWANCE + FIXED_ALLOWANCE);
      WrapExact(MAX_INT64 - (maxEntries * ENTRY_ALLOWANCE + FIXED_ALLOWANCE));
      if diskLimit + maxEntries * ENTRY_ALLOWANCE + FIXED_ALLOWANCE <= MAX_INT64 {
        WrapExact(diskLimit + (maxEntries * ENTRY_ALLOWANCE + FIXED_ALLOWANCE));
      }
    }
    hide Wrap;
  }

  // ---------------------------------------------------------------------
  // The limiting reader
  // ---------------------------------------------------------------------

  /** What one Read returns: some bytes, the end of the stream, or the limit error. */
  datatype Outcome = Outcome(bytes: Bytes, eof: bool, overLimit: bool)

  /** The reader's own field, and the stream underneath. */
  datatype Limited = Limited(remaining: int, rest: Bytes)

  /** One Read into a buffer of `length` bytes. The stream has `ready` bytes for it, and reports its
      end together with the last bytes (`eager`) or only afterwards. */
  datatype Request = Request(length: nat, ready: nat, eager: bool)

  function Take(rest: Bytes, length: nat, request: Request): Bytes
  {
    rest[..Min(|rest|, Min(length, request.ready))]
  }

  /** Does the stream report its end along with `count` bytes? */
  predicate ReportsEnd(rest: Bytes, count: nat, request: Request)
  {
    count == |rest| && (request.eager || |rest| == 0)
  }

  function ReadOnce(r: Limited, request: Request): (Limited, Outcome)
  {
    if r.remaining > 0 then
      var bytes := Take(r.rest, Min(request.length, r.remaining), request);
      (Limited(r.remaining - |bytes|, r.rest[|bytes|..]), Outcome(bytes, ReportsEnd(r.rest, |bytes|, request), false))
    else
      var probe := Take(r.rest, 1, request);
      (Limited(r.remaining, r.rest[|probe|..]),
       Outcome([], |probe| == 0 && ReportsEnd(r.rest, 0, request), |probe| > 0))
  }

  /** archiveLimitReader, over a stream held in memory. */
  class ArchiveLimitReader {
    var remaining: int
    var rest: Bytes

    function State(): Limited
      reads this
    {
      Limited(remaining, rest)
    }

    constructor (limit: int, stream: Bytes)
      ensures State() == Limited(limit, stream)
    {
      remaining, rest := limit, stream;
    }

    method Read(request: Request) returns (outcome: Outcome)
      modifies this
      ensures (State(), outcome) == ReadOnce(old(State()), request)
    {
      if remaining > 0 {
        var length := request.length;
        if length > remaining { length := remaining; }
        var bytes := Take(rest, length, request);
        outcome := Outcome(bytes, ReportsEnd(rest, |bytes|, request), false);
        rest := rest[|bytes|..];
        remaining := remaining - |bytes|;
        return;
      }
      var probe := Take(rest, 1, request);
      var end := ReportsEnd(rest, |probe|, request);
      rest := rest[|probe|..];
      if |probe| > 0 { return Outcome([], false, true); }
      return Outcome([], end, false);
    }
  }

  /** What a caller has seen after a series of reads, stopping at the first end or error. */
  datatype Seen = Seen(reader: Limited, delivered: Bytes, eof: bool, overLimit: bool)

  function ReadAll(limit: int, stream: Bytes, requests: seq<Request>): Seen
  {
    if requests == [] then Seen(Limited(limit, stream), [], false, false)
    else
      var before := ReadAll(limit, stream, requests[..|requests| - 1]);
      if before.eof || before.overLimit then before
      else
        var (after, outcome) := ReadOnce(before.reader, requests[|requests| - 1]);
        Seen(after, before.delivered + outcome.bytes, outcome.eof, outcome.overLimit)
  }

  lemma {:induction false} ReadAllInv(limit: nat, stream: Bytes, requests: seq<Request>)
    ensures var seen := ReadAll(limit, stream, requests);
            && |seen.delivered| <= limit
            && seen.delivered <= stream
            && (seen.eof ==> seen.delivered == stream)
            && (seen.overLimit ==> |seen.delivered| == limit < |stream|)
            && (!seen.overLimit ==> seen.reader.remaining == limit - |seen.delivered|)
            && (!seen.overLimit ==> seen.reader.rest == stream[|seen.delivered|..])
  {
    if requests != [] {
      ReadAllInv(limit, stream, requests[..|requests| - 1]);
      var before := ReadAll(limit, stream, requests[..|requests| - 1]);
      if !before.eof && !before.overLimit { ReadOnceTakes(before.reader, requests[|requests| - 1], before.delivered, stream); }
      hide ReadOnce;
    }
  }

  /** One read takes a prefix of what is left, within what remains, and says truthfully why it stops. */
  lemma ReadOnceTakes(r: Limited, request: Request, delivered: Bytes, stream: Bytes)
    requires r.remaining >= 0 && stream == delivered + r.rest
    ensures var (after, outcome) := ReadOnce(r, request);
            && |outcome.bytes| <= r.remaining && delivered + outcome.bytes <= stream
            && (outcome.eof ==> delivered + outcome.bytes == stream)
            && (outcome.overLimit ==> r.remaining == 0 && outcome.bytes == [] && r.rest != [])
            && (!outcome.overLimit ==> after.remaining == r.remaining - |outcome.bytes|
                                       && after.rest == stream[|delivered + outcome.bytes|..])
  {
    var bytes := ReadOnce(r, request).1.bytes;
    assert r.rest == bytes + r.rest[|bytes|..];
    Associate(delivered, bytes, r.rest[|bytes|..]);
  }

  /** Whatever the buffer sizes and however the stream trickles in: never more than the ceiling is
      handed on, always a prefix of the stream; the end is reported only for a stream within the
      ceiling, with all of it delivered; the limit error only for one that exceeds it, with exactly
      the ceiling delivered. */
  lemma ReaderEnforcesCeiling(limit: nat, stream: Bytes, requests: seq<Request>)
    ensures var seen := ReadAll(limit, stream, requests);
            && |seen.delivered| <= limit && seen.delivered <= stream
            && (seen.eof ==> |stream| <= limit && seen.delivered == stream)
            && (seen.overLimit ==> |stream| > limit && seen.delivered == stream[..limit])
  {
    ReadAllInv(limit, stream, requests);
  }

  predicate Moves(request: Request) { request.length > 0 && request.ready > 0 }

  lemma MovingReadSettles(r: Limited, request: Request)
    ensures Moves(request) ==> var outcome := ReadOnce(r, request).1; outcome.bytes != [] || outcome.eof || outcome.overLimit
  {
  }

  lemma {:induction false} MovingReadsProgress(limit: nat, stream: Bytes, requests: seq<Request>)
    requires forall request :: request in requests ==> Moves(request)
    ensures var seen := ReadAll(limit, stream, requests);
            seen.eof || seen.overLimit || |seen.delivered| >= |requests|
  {
    if requests != [] {
      var front := requests[..|requests| - 1];
      MovingReadsProgress(limit, stream, front);
      ReadAllInv(limit, stream, front);
      assert Moves(requests[|requests| - 1]);
    }
  }

  /** As long as every read has room and finds something, the outcome is settled after one read more
      than there are bytes, and it is decided by the length of the stream alone. */
  lemma LengthDecides(limit: nat, stream: Bytes, requests: seq<Request>)
    requires forall request :: request in requests ==> Moves(request)
    requires |requests| > |stream|
    ensures var seen := ReadAll(limit, stream, requests);
            && (|stream| <= limit ==> seen.eof && seen.delivered == stream)
            && (|stream| > limit ==> seen.overLimit && seen.delivered == stream[..limit])
  {
    ReadAllInv(limit, stream, requests);
    MovingReadsProgress(limit, stream, requests);
  }

  // ---------------------------------------------------------------------
  // The ceiling is wide enough
  // ---------------------------------------------------------------------

  function StreamLength(sizes: seq<nat>): nat
  {
    if sizes == [] then 2 * BLOCK else BLOCK + sizes[0] + Padding(sizes[0]) + StreamLength(sizes[1..])
  }

  function Sum(sizes: seq<nat>): nat { if sizes == [] then 0 else sizes[0] + Sum(sizes[1..]) }

  lemma {:induction false} StreamLengthBound(sizes: seq<nat>)
    ensures StreamLength(sizes) <= Sum(sizes) + 2 * BLOCK * |sizes| + 2 * BLOCK
  {
    if sizes != [] { StreamLengthBound(sizes[1..]); }
  }

  /** Every archive within the entry and disk limits, its root directory included, fits the ceiling
      and so is delivered whole: it never meets the limit error. */
  lemma LawfulArchivesPass(diskLimit: int, maxEntries: int, sizes: seq<nat>, stream: Bytes, requests: seq<Request>)
    requires diskLimit <= MAX_INT64 && maxEntries <= MAX_INT64 && ByteLimit(diskLimit, maxEntries).Some?
    requires |sizes| <= maxEntries && Sum(sizes) <= diskLimit
    requires |stream| == BLOCK + StreamLength(sizes)
    ensures |stream| <= ByteLimit(diskLimit, maxEntries).value
    ensures !ReadAll(ByteLimit(diskLimit, maxEntries).value, stream, requests).overLimit
  {
    CeilingIsExact(diskLimit, maxEntries);
    StreamLengthBound(sizes);
    hide ByteLimit;
    ReadAllInv(ByteLimit(diskLimit, maxEntries).value, stream, requests);
  }

  // ---------------------------------------------------------------------
  // After the end of the archive
  // ---------------------------------------------------------------------

  datatype Drain = Clean | NotZero | OverLimit | NoProgress

  /** drainZeroArchivePadding, reading until the end of the stream or the first irregularity. */
  method DrainZeroArchivePadding(reader: ArchiveLimitReader, requests: seq<Request>) returns (result: Drain, used: nat)
    modifies reader
    ensures used <= |requests|
    ensures var seen := ReadAll(old(reader.remaining), old(reader.rest), requests[..used]);
            && reader.State() == seen.reader
            && (result == Clean ==> seen.eof && IsZero(seen.delivered))
            && (result == OverLimit ==> seen.overLimit && IsZero(seen.delivered))
            && (result == NotZero ==> !IsZero(seen.delivered))
            && (result == NoProgress ==> IsZero(seen.delivered) && !seen.eof && !seen.overLimit)
    ensures result == NoProgress ==> used == |requests| || (used > 0 && !Moves(requests[used - 1]))
  {
    hide ReadOnce;
    used := 0;
    ghost var delivered: Bytes := [];
    ghost var limit, stream := reader.remaining, reader.rest;
    while used < |requests|
      invariant used <= |requests|
      invariant ReadAll(limit, stream, requests[..used]) == Seen(reader.State(), delivered, false, false)
      invariant IsZero(delivered)
    {
      MovingReadSettles(reader.State(), requests[used]);
      var outcome := reader.Read(requests[used]);
      assert requests[..used + 1][..used] == requests[..used];
      used := used + 1;
      delivered := delivered + outcome.bytes;
      if !IsZero(outcome.bytes) {
        ghost var bad :| bad in outcome.bytes && bad != 0;
        assert bad in delivered;
        return NotZero, used;
      }
      if outcome.overLimit { return OverLimit, used; }
      if outcome.eof { return Clean, used; }
      if outcome.bytes == [] { return NoProgress, used; }
    }
    return NoProgress, used;
  }
}
