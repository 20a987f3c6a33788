/**
 How the helper reads its commands: pieces of standard input of any size are
 appended to a bounded buffer and complete lines are taken off its front.
 */
module ControlInput {
  import opened Prelude
  import FrameStream

  const MAX_INPUT := 0x8_0000           // what the helper keeps of its input, newline included

  /** `over` is the end of file, or more input than the buffer takes. */
  datatype Reader = Reader(buffer: Bytes, lines: seq<Bytes>, over: bool)

  predicate Overflows(buffer: Bytes, chunk: Bytes) { chunk == [] || |buffer| + |chunk| > MAX_INPUT }

  function Read(r: Reader, chunk: Bytes): Reader
  {
    if r.over then r
    else if Overflows(r.buffer, chunk) then r.(over := true)
    else Reader(FrameStream.Tail(r.buffer + chunk), r.lines + FrameStream.Segments(r.buffer + chunk), false)
  }

  function ReadAll(r: Reader, chunks: seq<Bytes>): Reader
    decreases |chunks|
  {
    if chunks == [] then r else ReadAll(Read(r, chunks[0]), chunks[1..])
  }

  lemma {:induction false} StaysOver(r: Reader, chunks: seq<Bytes>)
    requires r.over
    ensures ReadAll(r, chunks) == r
    decreases |chunks|
  {
    if chunks != [] { StaysOver(r, chunks[1..]); }
  }

  lemma NothingLeft(chunks: seq<Bytes>)
    requires Flatten(chunks) == [] && forall i :: 0 <= i < |chunks| ==> chunks[i] != []
    ensures chunks == []
  {
  }

  /** The reader has part of the line and the chunks hold the rest of it. */
  lemma {:induction false} RestArrives(r: Reader, text: Bytes, chunks: seq<Bytes>)
    requires FrameStream.NEWLINE !in text && !r.over && |r.buffer| <= MAX_INPUT && r.buffer <= text
    requires forall i :: 0 <= i < |chunks| ==> chunks[i] != []
    requires r.buffer + Flatten(chunks) == text + [FrameStream.NEWLINE]
    ensures ReadAll(r, chunks) == if |text| + 1 <= MAX_INPUT then Reader([], r.lines + [text], false)
                                  else ReadAll(r, chunks).(lines := r.lines, over := true)
    decreases |chunks|
  {
    hide FrameStream.Segments, FrameStream.Tail;
    var whole := text + [FrameStream.NEWLINE];
    var more, rest := r.buffer + chunks[0], Flatten(chunks[1..]);
    Associate(r.buffer, chunks[0], rest);
    assert more + rest == whole;
    assert more == whole[..|more|];
    if |more| > MAX_INPUT {
      StaysOver(r.(over := true), chunks[1..]);
    } else if rest == [] {
      assert more == whole + [] == text + [FrameStream.NEWLINE] + [];
      FrameStream.SegmentsOfLine(text, []);
      FrameStream.SegmentsOfPlain([]);
      NothingLeft(chunks[1..]);
    } else {
      assert more == text[..|more|];
      FrameStream.SegmentsOfPlain(more);
      assert r.lines + [] == r.lines;
      RestArrives(Reader(more, r.lines, false), text, chunks[1..]);
    }
  }

  /** A command sent to a helper that waits for one arrives as one line, in whatever pieces it is read,
      if and only if the line and its newline fit the buffer; otherwise the helper gives up before it
      has seen a line. */
  lemma CommandArrives(lines: seq<Bytes>, text: Bytes, chunks: seq<Bytes>)
    requires FrameStream.NEWLINE !in text
    requires forall i :: 0 <= i < |chunks| ==> chunks[i] != []
    requires Flatten(chunks) == text + [FrameStream.NEWLINE]
    ensures var r := ReadAll(Reader([], lines, false), chunks);
            && (r.over <==> |text| + 1 > MAX_INPUT)
            && r.lines == (if r.over then lines else lines + [text])
            && (!r.over ==> r.buffer == [])
  {
    hide ReadAll;
    RestArrives(Reader([], lines, false), text, chunks);
  }
}
