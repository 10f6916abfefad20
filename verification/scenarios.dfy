/**
 Concrete streams the decoder is meant to handle. Each is stated for every
 parser that meets the scenario's hypotheses on the payloads involved, such
 as reading a message payload as that message; the message payloads are
 written without JSON escaping, so their answers are plain text.
 */
module Scenarios {
  import opened Text
  import opened Lines
  import opened Frames
  import opened Decoder

  /** An answer that JSON carries verbatim between quotes: no `"`, no `\\`
      and no control character, none of which a JSON string may hold
      unescaped. Escaped answers, including any with a line break, are
      outside these scenarios. */
  predicate PlainAnswer(answer: string) {
    forall i :: 0 <= i < |answer| ==>
      answer[i] != '"' && answer[i] != '\\' && answer[i] >= ' '
  }

  /** A plain answer has no line break. */
  lemma PlainAnswerNoNewline(answer: string)
    requires PlainAnswer(answer)
    ensures NoNewline(answer)
  {
  }

  /** A `message` event payload carrying `answer`, written without escaping:
      valid JSON text exactly when `answer` is plain. */
  function MessagePayload(answer: string): string
  {
    "{\"event\":\"message\",\"answer\":\"" + answer + "\"}"
  }

  /** The frame line the service sends for such a payload. */
  function MessageLine(answer: string): string
  {
    FrameLine("", " ", MessagePayload(answer), "")
  }

  /** The parser reads the payload of `answer` as a message event. */
  predicate ReadsMessage(parse: Parser, answer: string)
  {
    parse(MessagePayload(answer)) == Some(Event(Some(MessageKind), Some(answer)))
  }

  lemma NoNewlineAppend(a: string, b: string)
    requires NoNewline(a) && NoNewline(b)
    ensures NoNewline(a + b)
  {
  }

  lemma OneSpace()
    ensures AllWhitespace(" ") && AllWhitespace("")
  {
    assert " "[0] == ' ';
  }

  /** The payload of a plain answer is a `\n`-free, trimmed JSON text. */
  lemma PayloadShape(answer: string)
    requires PlainAnswer(answer)
    ensures var p := MessagePayload(answer);
            p != [] && Trimmed(p) && NoNewline(p)
  {
    PlainAnswerNoNewline(answer);
    var head, tail := "{\"event\":\"message\",\"answer\":\"", "\"}";
    var p := MessagePayload(answer);
    assert p == head + answer + tail;
    assert p[0] == '{' by {
      assert p[0] == head[0];
    }
    assert p[|p| - 1] == '}' by {
      assert p[|p| - 1] == tail[1];
    }
    NoNewlineAppend(head, answer);
    NoNewlineAppend(head + answer, tail);
  }

  /** A message line of a plain, non-empty answer yields that answer. */
  lemma MessageLineYields(parse: Parser, answer: string)
    requires ReadsMessage(parse, answer) && answer != [] && PlainAnswer(answer)
    ensures LineIncrement(parse, MessageLine(answer)) == Some(answer)
    ensures NoNewline(MessageLine(answer))
  {
    var p := MessagePayload(answer);
    PayloadShape(answer);
    OneSpace();
    LineIncrementOfFrame(parse, "", " ", p, "", answer);
    assert NoNewline(DataPrefix) && NoNewline(" ") && NoNewline("");
    NoNewlineAppend("", DataPrefix);
    NoNewlineAppend("" + DataPrefix, " ");
    NoNewlineAppend("" + DataPrefix + " ", p);
    NoNewlineAppend("" + DataPrefix + " " + p, "");
  }

  /** A frame line followed by `\n`, cut into two chunks at any position,
      yields exactly its answer. */
  lemma FrameSplitAnywhere(parse: Parser, line: string, a: string, k: nat)
    requires LineIncrement(parse, line) == Some(a) && NoNewline(line)
    requires k <= |line| + 1
    ensures var text := line + "\n";
            Decode(parse, [text[..k], text[k..]]) == [a]
  {
    var text := line + "\n";
    var chunks := [text[..k], text[k..]];
    ChunkBoundaryIndependence(parse, chunks);
    SplitText(parse, line, a, k);
  }

  lemma SplitText(parse: Parser, line: string, a: string, k: nat)
    requires LineIncrement(parse, line) == Some(a) && NoNewline(line)
    requires k <= |line| + 1
    ensures var text := line + "\n";
            StreamIncrements(parse, Concat([text[..k], text[k..]])) == [a]
  {
    TwoChunks(parse, line + "\n", k);
    OneLine(parse, line, a);
  }

  lemma TwoChunks(parse: Parser, text: string, k: nat)
    requires k <= |text|
    ensures StreamIncrements(parse, Concat([text[..k], text[k..]])) == StreamIncrements(parse, text)
  {
    var chunks := [text[..k], text[k..]];
    assert Concat(chunks) == text by {
      assert Concat(chunks[1..]) == text[k..] + Concat([]);
    }
  }

  /** A stream of one frame line and its `\n` yields the line's answer. */
  lemma OneLine(parse: Parser, line: string, a: string)
    requires LineIncrement(parse, line) == Some(a) && NoNewline(line)
    ensures StreamIncrements(parse, line + "\n") == [a]
  {
    assert StreamIncrements(parse, line + "\n") == StreamIncrements(parse, Terminated([line]) + "") by {
      assert line + "\n" == Terminated([line]) + "";
    }
    StreamOfLines(parse, [line], "");
    CollectInOrder(parse, [line], [a]);
    assert Finish(parse, "") == [];
  }

  /** A line that yields nothing between two frame lines is skipped:
      however the stream is chunked, the two answers arrive, in order. */
  lemma SkippedLineBetweenFrames(parse: Parser, l1: string, a: string, bad: string, l2: string, b: string,
                                 chunks: seq<string>)
    requires LineIncrement(parse, l1) == Some(a) && LineIncrement(parse, l2) == Some(b)
    requires LineIncrement(parse, bad) == None
    requires NoNewline(l1) && NoNewline(bad) && NoNewline(l2)
    requires Concat(chunks) == Terminated([l1, bad, l2])
    ensures Decode(parse, chunks) == [a, b]
  {
    ChunkBoundaryIndependence(parse, chunks);
    SkippedLineText(parse, l1, a, bad, l2, b);
  }

  lemma SkippedLineText(parse: Parser, l1: string, a: string, bad: string, l2: string, b: string)
    requires LineIncrement(parse, l1) == Some(a) && LineIncrement(parse, l2) == Some(b)
    requires LineIncrement(parse, bad) == None
    requires NoNewline(l1) && NoNewline(bad) && NoNewline(l2)
    ensures StreamIncrements(parse, Terminated([l1, bad, l2])) == [a, b]
  {
    ThreeNoNewline(l1, bad, l2);
    TerminatedStream(parse, [l1, bad, l2]);
    ThreeLines(parse, l1, a, bad, l2, b);
  }

  lemma ThreeNoNewline(l1: string, l2: string, l3: string)
    requires NoNewline(l1) && NoNewline(l2) && NoNewline(l3)
    ensures AllNoNewline([l1, l2, l3])
  {
  }

  /** A stream of complete lines only yields their increments. */
  lemma TerminatedStream(parse: Parser, lines: seq<string>)
    requires AllNoNewline(lines)
    ensures StreamIncrements(parse, Terminated(lines)) == Collect(parse, lines)
  {
    assert StreamIncrements(parse, Terminated(lines)) == StreamIncrements(parse, Terminated(lines) + "") by {
      assert Terminated(lines) == Terminated(lines) + "";
    }
    StreamOfLines(parse, lines, "");
    assert Finish(parse, "") == [];
  }

  lemma ThreeLines(parse: Parser, l1: string, a: string, bad: string, l2: string, b: string)
    requires LineIncrement(parse, l1) == Some(a) && LineIncrement(parse, l2) == Some(b)
    requires LineIncrement(parse, bad) == None
    ensures Collect(parse, [l1, bad, l2]) == [a, b]
  {
    CollectThree(parse, l1, bad, l2);
    CollectOne(parse, l1);
    CollectOne(parse, bad);
    CollectOne(parse, l2);
  }

  lemma CollectThree(parse: Parser, l1: string, l2: string, l3: string)
    ensures Collect(parse, [l1, l2, l3]) == Collect(parse, [l1]) + Collect(parse, [l2]) + Collect(parse, [l3])
  {
    assert [l1, l2, l3] == [l1] + [l2] + [l3];
    CollectAppend(parse, [l1] + [l2], [l3]);
    CollectAppend(parse, [l1], [l2]);
  }

  lemma CollectOne(parse: Parser, line: string)
    ensures Collect(parse, [line]) == match LineIncrement(parse, line)
                                      case Some(a) => [a]
                                      case None => []
  {
    assert [line][1..] == [];
  }

  /** A last frame line without its `\n` yields nothing while its chunk is
      fed and its answer once the stream finishes. */
  lemma TrailingFrameOnFinish(parse: Parser, line: string, a: string)
    requires LineIncrement(parse, line) == Some(a) && NoNewline(line)
    ensures Feed(parse, "", line).increments == []
    ensures Decode(parse, [line]) == [a]
  {
    assert NoNewline("" + line) by {
      assert "" + line == line;
    }
    ChunkBoundaryIndependence(parse, [line]);
    TrailingText(parse, line, a);
  }

  lemma TrailingText(parse: Parser, line: string, a: string)
    requires LineIncrement(parse, line) == Some(a) && NoNewline(line)
    ensures StreamIncrements(parse, Concat([line])) == [a]
  {
    assert Concat([line]) == Terminated([]) + line by {
      assert Concat([line]) == line + Concat([]);
    }
    StreamOfLines(parse, [], line);
    assert FinalIncrement(parse, line) == Some(a);
  }

  /** A frame whose payload is not JSON yields nothing. */
  lemma MalformedFrameIgnored(parse: Parser, payload: string)
    requires payload != [] && Trimmed(payload)
    requires parse(payload) == None
    ensures LineIncrement(parse, FrameLine("", " ", payload, "")) == None
  {
    OneSpace();
    FrameYieldsAnswer(parse, "", " ", payload, "");
  }

  /** A `ping` event yields nothing, whatever else the parsed object holds. */
  lemma PingIgnored(parse: Parser, payload: string, answer: Option<string>)
    requires payload != [] && Trimmed(payload)
    requires parse(payload) == Some(Event(Some("ping"), answer))
    ensures LineIncrement(parse, FrameLine("", " ", payload, "")) == None
  {
    OneSpace();
    FrameYieldsAnswer(parse, "", " ", payload, "");
  }
}
