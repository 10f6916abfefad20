/**
 The per-line frame rule of the decode loop: a line yields a text increment
 when its trimmed form starts with `data:`, the trimmed payload after that
 prefix parses as JSON, the parsed object's `event` is `"message"` and its
 `answer` is a non-empty string. The JSON parser is a parameter of the model.
 */
module Frames {
  import opened Text

  datatype Option<T> = None | Some(value: T)

  /** The two fields of a parsed event object the decoder looks at; a field
      the object lacks is `None`. */
  datatype Event = Event(event: Option<string>, answer: Option<string>)

  /** `JSON.parse` followed by the property reads: `None` when the payload
      is not valid JSON, and also when it parses to a value (such as `null`)
      whose property access throws inside the same `try`. */
  type Parser = string -> Option<Event>

  const DataPrefix: string := "data:"
  const MessageKind: string := "message"

  /** The `eventData.event === "message" && eventData.answer` test. */
  function Answer(parsed: Option<Event>): (r: Option<string>)
    ensures r.Some? <==> parsed.Some? && parsed.value.event == Some(MessageKind)
                         && parsed.value.answer.Some? && parsed.value.answer.value != []
    ensures r.Some? ==> parsed.value.answer == Some(r.value)
  {
    match parsed
    case None => None
    case Some(e) =>
      if e.event == Some(MessageKind) && e.answer.Some? && e.answer.value != [] then
        Some(e.answer.value)
      else
        None
  }

  /** The increment one complete line yields, if any. */
  function LineIncrement(parse: Parser, line: string): (r: Option<string>)
    ensures r.Some? ==> r.value != []
  {
    var trimmed := Trim(line);
    if !(DataPrefix <= trimmed) then
      None
    else
      var payload := Trim(trimmed[|DataPrefix|..]);
      if payload == [] then None else Answer(parse(payload))
  }

  /** The increment the residual buffer yields at end of stream, if any. The
      empty-payload guard of the per-line rule is absent here: an empty
      payload goes to the parser. */
  function FinalIncrement(parse: Parser, buffer: string): (r: Option<string>)
    ensures buffer == [] ==> r == None
    ensures r.Some? ==> r.value != []
  {
    if |buffer| == 0 then
      None
    else
      var trimmed := Trim(buffer);
      if !(DataPrefix <= trimmed) then
        None
      else
        Answer(parse(Trim(trimmed[|DataPrefix|..])))
  }

  /** The wire form of a frame: optional whitespace, `data:`, optional
      whitespace, the JSON payload, optional whitespace. */
  function FrameLine(w1: string, w2: string, payload: string, w3: string): string
  {
    w1 + DataPrefix + w2 + payload + w3
  }

  /** The pieces of a frame are well formed and the payload parses to a
      message event whose answer is the non-empty text `a`. */
  predicate IsMessageFrame(parse: Parser, w1: string, w2: string, payload: string, w3: string, a: string)
  {
    && AllWhitespace(w1) && AllWhitespace(w2) && AllWhitespace(w3)
    && payload != [] && Trimmed(payload)
    && parse(payload) == Some(Event(Some(MessageKind), Some(a)))
    && a != []
  }

  /** Trimming a frame line leaves the `data:` prefix, the inner padding and
      the payload. */
  lemma TrimFrameLine(w1: string, w2: string, payload: string, w3: string)
    requires AllWhitespace(w1) && AllWhitespace(w3)
    requires payload != [] && Trimmed(payload)
    ensures Trim(FrameLine(w1, w2, payload, w3)) == DataPrefix + w2 + payload
  {
    var core := DataPrefix + w2 + payload;
    assert FrameLine(w1, w2, payload, w3) == w1 + core + w3;
    assert core[0] == 'd';
    assert core[|core| - 1] == payload[|payload| - 1];
    TrimOfPadded(w1, core, w3);
  }

  /** A line in frame form yields what its payload's parse yields. */
  lemma FrameYieldsAnswer(parse: Parser, w1: string, w2: string, payload: string, w3: string)
    requires AllWhitespace(w1) && AllWhitespace(w2) && AllWhitespace(w3)
    requires payload != [] && Trimmed(payload)
    ensures LineIncrement(parse, FrameLine(w1, w2, payload, w3)) == Answer(parse(payload))
  {
    var core := DataPrefix + w2 + payload;
    TrimFrameLine(w1, w2, payload, w3);
    assert core[|DataPrefix|..] == w2 + payload + [];
    TrimOfPadded(w2, payload, []);
  }

  /** A message frame yields its answer. */
  lemma LineIncrementOfFrame(parse: Parser, w1: string, w2: string, payload: string, w3: string, a: string)
    requires IsMessageFrame(parse, w1, w2, payload, w3, a)
    ensures LineIncrement(parse, FrameLine(w1, w2, payload, w3)) == Some(a)
  {
    FrameYieldsAnswer(parse, w1, w2, payload, w3);
  }

  /** What a line that yields `a` must look like after trimming. */
  lemma LineIncrementShape(parse: Parser, line: string, a: string)
    requires LineIncrement(parse, line) == Some(a)
    ensures DataPrefix <= Trim(line)
    ensures var payload := Trim(Trim(line)[|DataPrefix|..]);
            && payload != []
            && parse(payload) == Some(Event(Some(MessageKind), Some(a)))
            && a != []
  {
  }

  /** Only a message frame yields anything: a line that yields `a` is a
      message frame for `a`; the lemma returns its pieces. */
  lemma FrameOfLineIncrement(parse: Parser, line: string, a: string)
    returns (w1: string, w2: string, payload: string, w3: string)
    requires LineIncrement(parse, line) == Some(a)
    ensures line == FrameLine(w1, w2, payload, w3)
    ensures IsMessageFrame(parse, w1, w2, payload, w3, a)
  {
    LineIncrementShape(parse, line, a);
    var trimmed := Trim(line);
    var after := trimmed[|DataPrefix|..];
    payload := Trim(after);
    var v1, v3 := TrimSplits(line);
    var u2, u3 := TrimSplits(after);
    TrimSpec(after);
    w1, w2, w3 := v1, u2, u3 + v3;
    assert trimmed == DataPrefix + after;
    Regroup(v1, DataPrefix, u2, payload, u3, v3);
    AllWhitespaceAppend(u3, v3);
  }

  lemma Regroup(a: string, b: string, c: string, d: string, e: string, f: string)
    ensures a + (b + (c + d + e)) + f == a + b + c + d + (e + f)
  {
  }

  lemma AllWhitespaceAppend(u: string, v: string)
    requires AllWhitespace(u) && AllWhitespace(v)
    ensures AllWhitespace(u + v)
  {
    forall i | 0 <= i < |u + v|
      ensures IsWhitespace((u + v)[i])
    {
      if i < |u| {
        assert (u + v)[i] == u[i];
      } else {
        assert (u + v)[i] == v[i - |u|];
      }
    }
  }

  /** The end-of-stream rule agrees with the per-line rule, because
      `JSON.parse("")` throws: an empty payload yields nothing either way. */
  lemma FinalAgreesWithLine(parse: Parser, buffer: string)
    requires parse("") == None
    ensures FinalIncrement(parse, buffer) == LineIncrement(parse, buffer)
  {
    if |buffer| == 0 {
      assert Trim(buffer) == [];
    }
  }
}
