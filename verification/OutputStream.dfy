/**
 Extraction from the raw stream: the archive reader and then the drain read
 through the byte ceiling, and the entries found on the way are materialised.
 What the archive reader makes of bytes is foreign code, a function of the bytes
 it was given.
 */
module OutputStream {
  import opened Prelude
  import opened Ustar
  import opened ArchiveLimit
  import OutputExport

  /** The entries up to the end of the archive, or None when the bytes are not an archive that ends. */
  type ArchiveReader = Bytes -> Option<seq<OutputExport.Entry>>

  /** Every read of the drain has room and finds something, and there are enough of them. */
  predicate Drains(requests: seq<Request>, stream: Bytes)
  {
    |requests| > |stream| && forall request :: request in requests ==> Moves(request)
  }

  /** The drain of what is left ends clean exactly when that fits under the ceiling and is all zeros. */
  method DrainRest(reader: ArchiveLimitReader, requests: seq<Request>) returns (clean: bool)
    requires reader.remaining >= 0 && Drains(requests, reader.rest)
    modifies reader
    ensures clean <==> old(|reader.rest| <= reader.remaining) && IsZero(old(reader.rest))
  {
    hide ReadAll;
    ghost var limit, stream := reader.remaining, reader.rest;
    var result, used := DrainZeroArchivePadding(reader, requests);
    ghost var taken := requests[..used];
    ReaderEnforcesCeiling(limit, stream, taken);
    assert forall request :: request in taken ==> request in requests;
    MovingReadsProgress(limit, stream, taken);
    ghost var seen := ReadAll(limit, stream, taken);
    assert IsZero(stream) ==> IsZero(seen.delivered) by {
      assert forall b :: b in seen.delivered ==> b in stream;
    }
    return result == Clean;
  }

  /** What is extracted from a stream: nothing unless it is an archive of lawful entries, followed by
      nothing but zeros, and all of it fits under the ceiling. */
  function FromStream(raw: Bytes, ceiling: nat, fetches: seq<Request>, archive: ArchiveReader, limits: OutputExport.Limits)
    : Option<OutputExport.Extraction>
  {
    var seen := ReadAll(ceiling, raw, fetches);
    if seen.overLimit || archive(seen.delivered).None? || |raw| > ceiling || !IsZero(seen.reader.rest) then None
    else OutputExport.Extract(archive(seen.delivered).value, limits)
  }

  /** extractOutputArchive over the raw stream. `fetches` are the archive reader's reads, up to where it
      stops; `drains` are those of the drain. */
  method ExtractStream(raw: Bytes, ceiling: nat, fetches: seq<Request>, archive: ArchiveReader, drains: seq<Request>,
                       limits: OutputExport.Limits)
    returns (extracted: Option<OutputExport.Extraction>)
    requires Drains(drains, raw)
    ensures extracted == FromStream(raw, ceiling, fetches, archive, limits)
  {
    hide OutputExport.Extract, ReadOnce;
    var reader := new ArchiveLimitReader(ceiling, raw);
    var delivered, eof, over := [], false, false;
    assert fetches[..0] == [];
    for i := 0 to |fetches|
      invariant ReadAll(ceiling, raw, fetches[..i]) == Seen(reader.State(), delivered, eof, over)
    {
      assert fetches[..i + 1][..i] == fetches[..i];
      if !eof && !over {
        var outcome := reader.Read(fetches[i]);
        delivered, eof, over := delivered + outcome.bytes, outcome.eof, outcome.overLimit;
      }
    }
    assert fetches[..|fetches|] == fetches;
    ReadAllInv(ceiling, raw, fetches);
    if over { return None; }
    var entries := archive(delivered);
    if entries == None { return None; }
    var clean := DrainRest(reader, drains);
    extracted := OutputExport.ExtractOutputArchive(entries.value, clean, limits);
  }

  lemma {:induction false} SameReads(one: nat, other: nat, raw: Bytes, fetches: seq<Request>)
    requires |raw| <= one && |raw| <= other
    ensures var left, right := ReadAll(one, raw, fetches), ReadAll(other, raw, fetches);
            && left.delivered == right.delivered && left.eof == right.eof && left.reader.rest == right.reader.rest
            && !left.overLimit && !right.overLimit
  {
    ReadAllInv(one, raw, fetches);
    ReadAllInv(other, raw, fetches);
    if fetches != [] {
      var front, request := fetches[..|fetches| - 1], fetches[|fetches| - 1];
      SameReads(one, other, raw, front);
      ReadAllInv(one, raw, front);
      ReadAllInv(other, raw, front);
      if !ReadAll(one, raw, front).eof { SameRead(ReadAll(one, raw, front).reader, ReadAll(other, raw, front).reader, request); }
      hide ReadOnce;
    }
  }

  lemma SameRead(left: Limited, right: Limited, request: Request)
    requires left.rest == right.rest && |left.rest| <= left.remaining && |right.rest| <= right.remaining
    ensures ReadOnce(left, request).1 == ReadOnce(right, request).1
    ensures ReadOnce(left, request).0.rest == ReadOnce(right, request).0.rest
  {
  }

  /** The ceiling refuses every stream that is longer and makes no difference to any other: for those
      every ceiling gives the same result. */
  lemma CeilingOnlyRefuses(one: nat, other: nat, raw: Bytes, fetches: seq<Request>, archive: ArchiveReader,
                           limits: OutputExport.Limits)
    ensures |raw| > one ==> FromStream(raw, one, fetches, archive, limits).None?
    ensures |raw| <= one && |raw| <= other ==>
              FromStream(raw, one, fetches, archive, limits) == FromStream(raw, other, fetches, archive, limits)
  {
    hide ReadAll;
    if |raw| <= one && |raw| <= other { SameReads(one, other, raw, fetches); }
  }

  /** Whatever is extracted, every byte of the stream was accounted for: the archive reader was given the
      front of it, the rest is zeros, and the tree is the one its entries make. */
  lemma ExtractedStreamIsWhole(raw: Bytes, ceiling: nat, fetches: seq<Request>, archive: ArchiveReader, limits: OutputExport.Limits)
    requires FromStream(raw, ceiling, fetches, archive, limits).Some?
    ensures |raw| <= ceiling
    ensures exists front: Bytes :: front <= raw && IsZero(raw[|front|..]) && archive(front).Some?
                            && FromStream(raw, ceiling, fetches, archive, limits) == OutputExport.Extract(archive(front).value, limits)
  {
    hide ReadAll;
    ReadAllInv(ceiling, raw, fetches);
    var front := ReadAll(ceiling, raw, fetches).delivered;
    assert front <= raw;
  }
}
