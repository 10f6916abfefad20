/**
 The caller side of the decoder: `sendChatMessage` as a whole (a missing
 response body, a read that fails mid-stream, a stream that ends normally)
 and the accumulation callback of `submitChat`, which appends every
 increment to the assistant's reply.
 */
module Client {
  import opened Text
  import opened Lines
  import opened Frames
  import opened Decoder

  /** What the transport delivers. `MissingBody` is a response without a
      body; `Body` carries the chunks read, and `completed` tells whether the
      reader then reported the end of the stream (true) or the next read
      failed (false). */
  datatype Transport =
    | MissingBody
    | Body(chunks: seq<string>, completed: bool)

  /** The increments handed to the callback, in order, and whether
      `sendChatMessage` then threw. */
  datatype Outcome = Outcome(delivered: seq<string>, failed: bool)

  /** The reply shown when `sendChatMessage` throws. */
  const ErrorReply: string := "エラーが発生しました"

  /** `sendChatMessage` after the request is sent. A missing body fails
      before any increment. A stream that ends normally delivers the
      reference reading of its whole text. A failed read delivers exactly
      the increments of the complete lines read so far: the pending
      fragment is dropped without the final flush. */
  function SendChatMessage(parse: Parser, t: Transport): (o: Outcome)
    ensures t.MissingBody? ==> o == Outcome([], true)
    ensures t.Body? && t.completed ==>
              o == Outcome(StreamIncrements(parse, Concat(t.chunks)), false)
    ensures t.Body? && !t.completed ==>
              o == Outcome(Collect(parse, Reassemble(Concat(t.chunks)).lines), true)
  {
    match t
    case MissingBody => Outcome([], true)
    case Body(chunks, completed) =>
      FeedAllReassembles(parse, "", chunks);
      assert "" + Concat(chunks) == Concat(chunks);
      if completed then
        ChunkBoundaryIndependence(parse, chunks);
        Outcome(Decode(parse, chunks), false)
      else
        Outcome(FeedAll(parse, "", chunks).increments, true)
  }

  /** Whatever a failed stream delivered before its failure is exactly what
      the same stream would have delivered by then had it gone on: every
      continuation that ends normally starts with those increments. */
  lemma FailureKeepsDelivered(parse: Parser, chunks: seq<string>, more: seq<string>)
    ensures SendChatMessage(parse, Body(chunks, false)).delivered
            <= SendChatMessage(parse, Body(chunks + more, true)).delivered
  {
    var x, y := Concat(chunks), Concat(more);
    var rx := Reassemble(x);
    var rxy := Reassemble(x + y);
    ConcatReassemble(chunks, more);
    ReassembleCollect(parse, x, y);
    var before, after := Collect(parse, rx.lines), Collect(parse, Reassemble(rx.rest + y).lines);
    assert SendChatMessage(parse, Body(chunks + more, true)).delivered
        == (before + after) + Finish(parse, rxy.rest);
    PrefixOfConcat(before, after, Finish(parse, rxy.rest));
  }

  lemma PrefixOfConcat<T>(a: seq<T>, b: seq<T>, c: seq<T>)
    ensures a <= (a + b) + c
  {
    assert ((a + b) + c)[..|a|] == a;
  }

  /** Concatenating two runs of chunks concatenates their texts. */
  lemma ConcatReassemble(chunks: seq<string>, more: seq<string>)
    ensures Reassemble(Concat(chunks + more)) == Reassemble(Concat(chunks) + Concat(more))
  {
    ConcatAppend(chunks, more);
  }

  /** The callback `submitChat` passes to `sendChatMessage`
      (src/app/page.tsx:107-111): `accumulated += chunk` for every
      increment, in order. `shown` lists the successive values passed to
      the display; each is a prefix of the final reply, and the final reply
      is all increments concatenated. */
  method Accumulate(incs: seq<string>) returns (accumulated: string, shown: seq<string>)
    ensures accumulated == Concat(incs)
    ensures |shown| == |incs|
    ensures forall k :: 0 <= k < |incs| ==> shown[k] == Concat(incs[..k + 1])
    ensures forall k :: 0 <= k < |shown| ==> shown[k] <= accumulated
  {
    accumulated := "";
    shown := [];
    for k := 0 to |incs|
      invariant accumulated == Concat(incs[..k])
      invariant |shown| == k
      invariant forall m :: 0 <= m < k ==> shown[m] == Concat(incs[..m + 1])
    {
      assert incs[..k + 1] == incs[..k] + [incs[k]];
      ConcatAppend(incs[..k], [incs[k]]);
      assert Concat([incs[k]]) == incs[k] + Concat([]);
      accumulated := accumulated + incs[k];
      shown := shown + [accumulated];
    }
    assert incs[..|incs|] == incs;
    forall k | 0 <= k < |shown|
      ensures shown[k] <= accumulated
    {
      assert incs == incs[..k + 1] + incs[k + 1..];
      ConcatAppend(incs[..k + 1], incs[k + 1..]);
    }
  }

  /** `submitChat` from its `try` on (src/app/page.tsx:106-123): the assistant's entry in the history is
      the accumulated reply when the stream ends normally and the error
      reply when `sendChatMessage` throws; `shown` is the streaming display
      in between. */
  method SubmitChat(parse: Parser, t: Transport) returns (reply: string, shown: seq<string>)
    ensures SendChatMessage(parse, t).failed ==> reply == ErrorReply
    ensures t.Body? && t.completed ==>
              reply == Concat(StreamIncrements(parse, Concat(t.chunks)))
    ensures var d := SendChatMessage(parse, t).delivered;
            && |shown| == |d|
            && forall k :: 0 <= k < |d| ==> shown[k] == Concat(d[..k + 1])
    ensures forall k :: 0 <= k < |shown| ==>
              shown[k] <= Concat(SendChatMessage(parse, t).delivered)
  {
    var o := SendChatMessage(parse, t);
    var accumulated;
    accumulated, shown := Accumulate(o.delivered);
    if o.failed {
      reply := ErrorReply;
    } else {
      reply := accumulated;
    }
  }
}
