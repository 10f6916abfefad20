/**
 The incremental stream decoder of `sendChatMessage`: its only state is the
 pending-line buffer. `Feed` appends a chunk, cuts off the complete lines and
 turns each into at most one increment; `Finish` interprets the residual
 buffer once more at end of stream.
 */
module Decoder {
  import opened Text
  import opened Lines
  import opened Frames

  /** The decoder state after a step, with the increments that step emitted. */
  datatype Step = Step(buffer: string, increments: seq<string>)

  /** The increments a run of complete lines yields, in line order. */
  function Collect(parse: Parser, lines: seq<string>): (incs: seq<string>)
    ensures |incs| <= |lines|
    ensures forall k :: 0 <= k < |incs| ==> incs[k] != []
  {
    if lines == [] then
      []
    else
      var head := match LineIncrement(parse, lines[0])
        case Some(a) => [a]
        case None => [];
      head + Collect(parse, lines[1..])
  }

  /** Lines earlier in the stream emit their increments earlier. */
  lemma {:induction false} CollectAppend(parse: Parser, a: seq<string>, b: seq<string>)
    ensures Collect(parse, a + b) == Collect(parse, a) + Collect(parse, b)
    decreases |a|
  {
    if a == [] {
      assert a + b == b;
    } else {
      assert (a + b)[1..] == a[1..] + b;
      CollectAppend(parse, a[1..], b);
    }
  }

  /** When every line yields an increment, the increments are exactly those
      answers, one per line, in line order. */
  lemma {:induction false} CollectInOrder(parse: Parser, lines: seq<string>, answers: seq<string>)
    requires |answers| == |lines|
    requires forall i :: 0 <= i < |lines| ==> LineIncrement(parse, lines[i]) == Some(answers[i])
    ensures Collect(parse, lines) == answers
    decreases |lines|
  {
    if lines != [] {
      CollectInOrder(parse, lines[1..], answers[1..]);
    }
  }

  /** A line that yields nothing (not a frame, empty payload, malformed JSON,
      another event kind, no answer) is skipped without disturbing the
      increments of the lines around it. */
  lemma SkippedLineIsolated(parse: Parser, before: seq<string>, bad: string, after: seq<string>)
    requires LineIncrement(parse, bad) == None
    ensures Collect(parse, before + [bad] + after) == Collect(parse, before) + Collect(parse, after)
  {
    CollectAppend(parse, before + [bad], after);
    CollectAppend(parse, before, [bad]);
  }

  /** One chunk of the read loop of `sendChatMessage`
      (src/app/page.tsx:48-65): append it to the buffer, split off the complete
      lines, keep the fragment after the last `\n` as the new buffer and
      emit the complete lines' increments in order. */
  function Feed(parse: Parser, buffer: string, chunk: string): (s: Step)
    ensures NoNewline(s.buffer)
    ensures var text := buffer + chunk;
            && |s.buffer| <= |text|
            && text[|text| - |s.buffer|..] == s.buffer
            && (|s.buffer| < |text| ==> text[|text| - |s.buffer| - 1] == '\n')
    ensures NoNewline(buffer + chunk) ==> s == Step(buffer + chunk, [])
  {
    var r := Reassemble(buffer + chunk);
    RestIsAfterLastNewline(buffer + chunk);
    assert NoNewline(buffer + chunk) ==> r == Reassembly([], buffer + chunk) by {
      if NoNewline(buffer + chunk) {
        assert buffer + chunk == Terminated([]) + (buffer + chunk);
        ReassembleUnique([], buffer + chunk);
      }
    }
    Step(r.rest, Collect(parse, r.lines))
  }

  /** End of stream, the final flush of `sendChatMessage`
      (src/app/page.tsx:68-81): a non-empty residual buffer yields at most
      one increment. */
  function Finish(parse: Parser, buffer: string): (incs: seq<string>)
    ensures |incs| <= 1
    ensures buffer == [] ==> incs == []
    ensures parse("") == None ==> incs == Collect(parse, [buffer])
  {
    var incs := match FinalIncrement(parse, buffer)
      case Some(a) => [a]
      case None => [];
    assert parse("") == None ==> FinalIncrement(parse, buffer) == LineIncrement(parse, buffer) by {
      if parse("") == None {
        FinalAgreesWithLine(parse, buffer);
      }
    }
    incs
  }

  /** Feeds the chunks one after another, in order. */
  function FeedAll(parse: Parser, buffer: string, chunks: seq<string>): Step
    decreases |chunks|
  {
    if chunks == [] then
      Step(buffer, [])
    else
      var s := Feed(parse, buffer, chunks[0]);
      var t := FeedAll(parse, s.buffer, chunks[1..]);
      Step(t.buffer, s.increments + t.increments)
  }

  /** The whole stream: feed every chunk starting from an empty buffer, then
      finish. */
  function Decode(parse: Parser, chunks: seq<string>): seq<string>
  {
    var s := FeedAll(parse, "", chunks);
    s.increments + Finish(parse, s.buffer)
  }

  /** The reference reading of a stream's text, independent of chunking: its
      complete lines' increments, then the final fragment's. */
  function StreamIncrements(parse: Parser, text: string): seq<string>
  {
    var r := Reassemble(text);
    Collect(parse, r.lines) + Finish(parse, r.rest)
  }

  /** Feeding chunks leaves exactly the text after the last `\n` in the
      buffer and has emitted exactly the increments of the complete lines,
      wherever the chunk boundaries fall. */
  lemma {:induction false} FeedAllReassembles(parse: Parser, buffer: string, chunks: seq<string>)
    requires NoNewline(buffer)
    ensures var r := Reassemble(buffer + Concat(chunks));
            FeedAll(parse, buffer, chunks) == Step(r.rest, Collect(parse, r.lines))
    decreases |chunks|, 1
  {
    if chunks == [] {
      assert buffer + Concat(chunks) == Terminated([]) + buffer;
      ReassembleUnique([], buffer);
    } else {
      FeedOneMore(parse, buffer, chunks);
    }
  }

  /** The inductive step of FeedAllReassembles: the first chunk's lines,
      then the claim for the chunks after it, starting from the fragment
      the first chunk leaves pending. */
  lemma FeedOneMore(parse: Parser, buffer: string, chunks: seq<string>)
    requires chunks != []
    ensures var r := Reassemble(buffer + Concat(chunks));
            FeedAll(parse, buffer, chunks) == Step(r.rest, Collect(parse, r.lines))
    decreases |chunks|, 0
  {
    var x, y := buffer + chunks[0], Concat(chunks[1..]);
    var rx := Reassemble(x);
    var ry := Reassemble(rx.rest + y);
    FeedAllReassembles(parse, rx.rest, chunks[1..]);
    FirstChunk(buffer, chunks);
    assert FeedAll(parse, buffer, chunks)
        == Step(ry.rest, Collect(parse, rx.lines) + Collect(parse, ry.lines));
    ReassembleCollect(parse, x, y);
  }

  /** Reading the first chunk and then the others reads the same text. */
  lemma FirstChunk(buffer: string, chunks: seq<string>)
    requires chunks != []
    ensures Reassemble(buffer + Concat(chunks)) == Reassemble((buffer + chunks[0]) + Concat(chunks[1..]))
  {
    assert buffer + Concat(chunks) == (buffer + chunks[0]) + Concat(chunks[1..]);
  }

  /** Reassembly in two pieces, read through Collect. */
  lemma ReassembleCollect(parse: Parser, x: string, y: string)
    ensures var rx := Reassemble(x);
            var ry := Reassemble(rx.rest + y);
            var r := Reassemble(x + y);
            && r.rest == ry.rest
            && Collect(parse, r.lines) == Collect(parse, rx.lines) + Collect(parse, ry.lines)
  {
    var rx := Reassemble(x);
    var ry := Reassemble(rx.rest + y);
    ReassembleAppend(x, y);
    CollectAppend(parse, rx.lines, ry.lines);
  }

  /** Chunk-boundary independence: decoding a chunked stream gives the
      increments of its concatenated text. */
  lemma ChunkBoundaryIndependence(parse: Parser, chunks: seq<string>)
    ensures Decode(parse, chunks) == StreamIncrements(parse, Concat(chunks))
  {
    FeedAllReassembles(parse, "", chunks);
    assert "" + Concat(chunks) == Concat(chunks);
  }

  /** Two chunkings of the same text decode to the same increments. */
  lemma SameTextSameIncrements(parse: Parser, chunks1: seq<string>, chunks2: seq<string>)
    requires Concat(chunks1) == Concat(chunks2)
    ensures Decode(parse, chunks1) == Decode(parse, chunks2)
  {
    ChunkBoundaryIndependence(parse, chunks1);
    ChunkBoundaryIndependence(parse, chunks2);
  }

  /** A stream made of given lines and a final fragment yields the lines'
      increments in order, then the fragment's. */
  lemma StreamOfLines(parse: Parser, lines: seq<string>, rest: string)
    requires AllNoNewline(lines) && NoNewline(rest)
    ensures StreamIncrements(parse, Terminated(lines) + rest)
            == Collect(parse, lines) + Finish(parse, rest)
  {
    ReassembleUnique(lines, rest);
  }

  /** What one more line adds to the increments of the lines before it. */
  lemma CollectSnoc(parse: Parser, lines: seq<string>, j: nat)
    requires j < |lines|
    ensures var inc := LineIncrement(parse, lines[j]);
            Collect(parse, lines[..j + 1])
            == Collect(parse, lines[..j]) + (if inc.Some? then [inc.value] else [])
  {
    assert lines[..j + 1] == lines[..j] + [lines[j]];
    CollectAppend(parse, lines[..j], [lines[j]]);
  }

  /** One turn of the outer loop of DecodeStream carries the reassembly of the text read so
      far over to the text read after one more chunk. */
  lemma NextChunk(parse: Parser, chunks: seq<string>, i: nat)
    requires i < |chunks|
    ensures var r := Reassemble(Concat(chunks[..i]));
            var step := Reassemble(r.rest + chunks[i]);
            var r' := Reassemble(Concat(chunks[..i + 1]));
            && r'.rest == step.rest
            && Collect(parse, r'.lines) == Collect(parse, r.lines) + Collect(parse, step.lines)
  {
    var x, y := Concat(chunks[..i]), chunks[i];
    var r := Reassemble(x);
    var step := Reassemble(r.rest + y);
    assert Concat(chunks[..i + 1]) == x + y by {
      assert chunks[..i + 1] == chunks[..i] + [y];
      ConcatAppend(chunks[..i], [y]);
      assert Concat([y]) == y + Concat([]);
    }
    ReassembleAppend(x, y);
    assert Reassemble(x + y) == Reassembly(r.lines + step.lines, step.rest);
    CollectAppend(parse, r.lines, step.lines);
  }

  /** The decode loop of `sendChatMessage` (src/app/page.tsx:42-81) as
      the source writes it: an outer loop
      over chunks with an inner loop over the complete lines, then the final
      flush. Its result is the reference reading of the whole text. */
  method DecodeStream(parse: Parser, chunks: seq<string>) returns (incs: seq<string>)
    ensures incs == StreamIncrements(parse, Concat(chunks))
  {
    var buffer := "";
    incs := [];
    var i := 0;
    ReassembleUnique([], "");
    assert Concat(chunks[..0]) == Terminated([]) + "";
    while i < |chunks|
      invariant 0 <= i <= |chunks|
      invariant buffer == Reassemble(Concat(chunks[..i])).rest
      invariant incs == Collect(parse, Reassemble(Concat(chunks[..i])).lines)
    {
      var parts := SplitLines(buffer + chunks[i]);
      var lines := parts[..|parts| - 1];
      var found := [];
      var j := 0;
      while j < |lines|
        invariant 0 <= j <= |lines|
        invariant found == Collect(parse, lines[..j])
      {
        var inc := LineIncrement(parse, lines[j]);
        if inc.Some? {
          found := found + [inc.value];
        }
        CollectSnoc(parse, lines, j);
        j := j + 1;
      }
      assert lines[..j] == lines;
      NextChunk(parse, chunks, i);
      incs := incs + found;
      buffer := parts[|parts| - 1];
      i := i + 1;
    }
    assert chunks[..i] == chunks;
    incs := incs + Finish(parse, buffer);
  }
}
