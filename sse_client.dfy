/**
 * The test client of the chat-completions endpoint: the request payload it
 * sends and `_parse_sse_text`, which reads a server-sent-event body back
 * into the answer text. Together with the server's stream it forms a round
 * trip: the client reads back exactly the text the server streamed.
 */
module SseClient {
  import opened Wrappers
  import opened Text
  import opened TextFacts
  import opened Json
  import opened Service

  const DoneLine := "data: [DONE]"

  /** What one line of the body does to the parse. */
  datatype LineAction = Skip | Stop | Chunk(delta: Json)

  /**
   * `payload.get("choices", [{}])[0].get("delta", {}).get("content", "")`;
   * `None` when a step raises, which the client's `except` swallows.
   */
  function DeltaOf(payload: Json): Option<Json> {
    match Get(payload, "choices", Array([Object(map[])]))
    case None => None
    case Some(choices) =>
      match First(choices)
      case None => None
      case Some(choice) =>
        match Get(choice, "delta", Object(map[]))
        case None => None
        case Some(delta) => Get(delta, "content", Str(""))
  }

  /** One iteration of the client's loop over `body.splitlines()`. */
  function Classify(raw: string, decode: string -> Option<Json>): LineAction {
    var line := Strip(raw);
    if line == [] || !StartsWith(line, DataPrefix) then Skip
    else if line == DoneLine then Stop
    else
      match decode(line[|DataPrefix|..])
      case None => Skip
      case Some(payload) =>
        match DeltaOf(payload)
        case None => Skip
        case Some(delta) => if Truthy(delta) then Chunk(delta) else Skip
  }

  /** The deltas collected from `lines`, up to the first `[DONE]`. */
  function Collect(lines: seq<string>, decode: string -> Option<Json>): seq<Json> {
    if lines == [] then []
    else
      match Classify(lines[0], decode)
      case Stop => []
      case Skip => Collect(lines[1..], decode)
      case Chunk(d) => [d] + Collect(lines[1..], decode)
  }

  /** `"".join(chunks)`; `None` for the TypeError a non-string chunk raises. */
  function Concat(chunks: seq<Json>): (r: Option<string>)
    ensures r.Some? <==> forall i :: 0 <= i < |chunks| ==> chunks[i].Str?
  {
    if chunks == [] then Some([])
    else if !chunks[0].Str? then None
    else
      match Concat(chunks[1..])
      case None => None
      case Some(rest) => Some(chunks[0].s + rest)
  }

  /** What `_parse_sse_text(body)` returns. */
  function SseText(body: string, decode: string -> Option<Json>): (r: Option<string>)
    ensures var chunks := Collect(SplitLines(body), decode);
      r.None? <==> exists i :: 0 <= i < |chunks| && !chunks[i].Str?
  {
    Concat(Collect(SplitLines(body), decode))
  }

  /** `_parse_sse_text`. */
  method ParseSseText(body: string, decode: string -> Option<Json>) returns (r: Option<string>)
    ensures r == SseText(body, decode)
  {
    var lines := SplitLines(body);
    var chunks: seq<Json> := [];
    var i := 0;
    while i < |lines|
      invariant 0 <= i <= |lines|
      invariant Collect(lines, decode) == chunks + Collect(lines[i..], decode)
    {
      CollectFrom(lines, i, decode);
      var line := Strip(lines[i]);
      if line == [] || !StartsWith(line, DataPrefix) {
        assert Classify(lines[i], decode) == Skip;
        i := i + 1;
        continue;
      }
      if line == DoneLine {
        assert Classify(lines[i], decode) == Stop;
        break;
      }
      var payload := decode(line[|DataPrefix|..]);
      if payload.Some? {
        var delta := DeltaOf(payload.value);
        if delta.Some? && Truthy(delta.value) {
          assert Classify(lines[i], decode) == Chunk(delta.value);
          chunks := chunks + [delta.value];
        } else {
          assert Classify(lines[i], decode) == Skip;
        }
      } else {
        assert Classify(lines[i], decode) == Skip;
      }
      i := i + 1;
    }
    assert i == |lines| ==> lines[i..] == [];
    assert chunks == Collect(lines, decode);
    r := Concat(chunks);
  }

  /** One step of `Collect` from position `i`. */
  lemma {:induction false} CollectFrom(lines: seq<string>, i: nat, decode: string -> Option<Json>)
    requires i < |lines|
    ensures Collect(lines[i..], decode) == match Classify(lines[i], decode)
      case Stop => []
      case Skip => Collect(lines[i + 1..], decode)
      case Chunk(d) => [d] + Collect(lines[i + 1..], decode)
  {
    assert lines[i..][1..] == lines[i + 1..];
  }

  /** Lines before the first `[DONE]` contribute their deltas in order. */
  lemma {:induction false} CollectAppend(a: seq<string>, b: seq<string>, decode: string -> Option<Json>)
    requires forall i :: 0 <= i < |a| ==> Classify(a[i], decode) != Stop
    ensures Collect(a + b, decode) == Collect(a, decode) + Collect(b, decode)
  {
    if a != [] {
      assert (a + b)[0] == a[0];
      assert (a + b)[1..] == a[1..] + b;
      CollectAppend(a[1..], b, decode);
    } else {
      assert a + b == b;
    }
  }

  /** Everything after the first `[DONE]` is ignored. */
  lemma {:induction false} StopsAtDone(a: seq<string>, done: string, b: seq<string>, decode: string -> Option<Json>)
    requires forall i :: 0 <= i < |a| ==> Classify(a[i], decode) != Stop
    requires Strip(done) == DoneLine
    ensures Collect(a + [done] + b, decode) == Collect(a, decode)
  {
    CollectAppend(a, [done] + b, decode);
    assert a + [done] + b == a + ([done] + b);
    assert Collect([done] + b, decode) == [];
  }

  /** The answer is the concatenation of the string deltas, in order. */
  lemma {:induction false} ConcatAppend(x: seq<Json>, y: seq<Json>)
    requires forall i :: 0 <= i < |x| ==> x[i].Str?
    ensures Concat(x).Some?
    ensures Concat(x + y) == match Concat(y) case None => None case Some(t) => Some(Concat(x).value + t)
  {
    if x != [] {
      assert (x + y)[0] == x[0];
      assert (x + y)[1..] == x[1..] + y;
      ConcatAppend(x[1..], y);
      match Concat(y)
      case None =>
      case Some(t) =>
        assert x[0].s + (Concat(x[1..]).value + t) == x[0].s + Concat(x[1..]).value + t;
    } else {
      assert x + y == y;
      match Concat(y)
      case None =>
      case Some(t) => assert [] + t == t;
    }
  }

  /** A frame whose payload does not decode is skipped. */
  lemma {:induction false} MalformedSkipped(line: string, rest: seq<string>, decode: string -> Option<Json>)
    requires Strip(line) != DoneLine && StartsWith(Strip(line), DataPrefix)
    requires var payload := decode(Strip(line)[|DataPrefix|..]);
      payload.None? || DeltaOf(payload.value).None? || !Truthy(DeltaOf(payload.value).value)
    ensures Collect([line] + rest, decode) == Collect(rest, decode)
  {
    assert ([line] + rest)[1..] == rest;
  }

  // ---------------------------------------------------------------------
  // The round trip with the server's stream

  lemma {:induction false} LineEndAt(x: string, rest: string)
    requires NoLineBreak(x)
    ensures LineEnd(x + "\n" + rest) == |x|
  {
    if x != [] {
      var s := x + "\n" + rest;
      assert s[0] == x[0];
      assert s[1..] == x[1..] + "\n" + rest;
      LineEndAt(x[1..], rest);
    }
  }

  /** A line without line boundaries, then `\n`, splits off as one line. */
  lemma {:induction false} SplitLinesCons(x: string, rest: string)
    requires NoLineBreak(x)
    ensures SplitLines(x + "\n" + rest) == [x] + SplitLines(rest)
  {
    var s := x + "\n" + rest;
    LineEndAt(x, rest);
    assert s[|x|] == '\n';
    assert s[..|x|] == x;
    assert s[|x| + 1..] == rest;
  }

  lemma {:induction false} NoLineBreakConcat(a: string, b: string)
    requires NoLineBreak(a) && NoLineBreak(b)
    ensures NoLineBreak(a + b)
  {
    forall i | 0 <= i < |a + b| ensures !IsLineBreak((a + b)[i]) {
      if i >= |a| {
        assert (a + b)[i] == b[i - |a|];
      }
    }
  }

  /** Two lines, each followed by a blank line, split into four lines. */
  lemma {:induction false} TwoFramesLines(l: string, d: string)
    requires NoLineBreak(l) && NoLineBreak(d)
    ensures SplitLines(l + "\n" + ("" + "\n" + (d + "\n" + ("" + "\n" + "")))) == [l, "", d, ""]
  {
    var t3 := "" + "\n" + (d + "\n" + ("" + "\n" + ""));
    DoneFrameLines(d);
    SplitLinesCons(l, t3);
  }

  lemma {:induction false} DoneFrameLines(d: string)
    requires NoLineBreak(d)
    ensures SplitLines("" + "\n" + (d + "\n" + ("" + "\n" + ""))) == ["", d, ""]
  {
    assert NoLineBreak("");
    var t1 := "" + "\n" + "";
    var t2 := d + "\n" + t1;
    SplitLinesCons("", "");
    SplitLinesCons(d, t1);
    SplitLinesCons("", t2);
  }

  /** `l\n\n` followed by `d\n\n`, regrouped line by line. */
  lemma {:induction false} TwoFramesText(l: string, d: string)
    ensures (l + "\n\n") + (d + "\n\n") == l + "\n" + ("" + "\n" + (d + "\n" + ("" + "\n" + "")))
  {
    assert "\n\n" == "\n" + "\n";
    assert "" + "\n" + "" == "\n";
    assert (l + "\n\n") + (d + "\n\n") == l + "\n" + ("\n" + (d + "\n" + "\n"));
  }

  /** The body the client receives: the two frames one after the other. */
  lemma {:induction false} StreamBody(encode: Json -> string, a: Accepted, text: string)
    ensures var l := DataPrefix + encode(ChunkObject(a, text));
      Join(GenerateStream(encode, a, text), "") == (l + "\n\n") + (DoneLine + "\n\n")
  {
    var frames := GenerateStream(encode, a, text);
    assert Join(frames, "") == frames[0] + "" + frames[1];
    assert DoneFrame == DoneLine + "\n\n";
  }

  /** A chunk line, a blank, `[DONE]` and a blank yield the chunk line's delta, if any. */
  lemma {:induction false} CollectFrameLines(l: string, decode: string -> Option<Json>)
    requires Classify(l, decode) != Stop
    ensures Collect([l, "", DoneLine, ""], decode) == match Classify(l, decode) case Chunk(x) => [x] case _ => []
  {
    var lines := [l, "", DoneLine, ""];
    assert Classify("", decode) == Skip;
    assert Classify(DoneLine, decode) == Stop by {
      StripUnchanged(DoneLine);
    }
    assert lines[1..][0] == "" && lines[1..][1..] == [DoneLine, ""];
    assert Collect(lines[1..], decode) == [];
  }

  /** The chunk line of the server's first frame yields the streamed text (when non-empty). */
  lemma {:induction false} ChunkLineRead(encode: Json -> string, decode: string -> Option<Json>, a: Accepted, text: string)
    requires Lawful(encode, decode)
    ensures var e := encode(ChunkObject(a, text));
      NoLineBreak(DataPrefix + e)
      && Classify(DataPrefix + e, decode) == if text == [] then Skip else Chunk(Str(text))
  {
    var obj := ChunkObject(a, text);
    var e := encode(obj);
    ObjectLine(e);
    assert decode(e) == Some(obj);
    assert DeltaOf(obj) == Some(Str(text));
  }

  /** A `data: ` line carrying an encoded dict is one line, already stripped, and not the end of the stream. */
  lemma {:induction false} ObjectLine(e: string)
    requires NoLineBreak(e) && |e| >= 2 && e[0] == '{' && e[|e| - 1] == '}'
    ensures var line := DataPrefix + e;
      && NoLineBreak(line) && Strip(line) == line && line != []
      && StartsWith(line, DataPrefix) && line != DoneLine && line[|DataPrefix|..] == e
  {
    var line := DataPrefix + e;
    NoLineBreakConcat(DataPrefix, e);
    assert line[|line| - 1] == e[|e| - 1];
    StripUnchanged(line);
    assert line[..|DataPrefix|] == DataPrefix;
    assert line[6] == e[0] == '{';
    DoneLineShape();
    assert line != DoneLine by {
      if |line| == |DoneLine| {
        assert line[6] != DoneLine[6];
      }
    }
    assert line[|DataPrefix|..] == e;
  }


  /**
   * Round trip: given a lawful JSON codec, the client reads back from the
   * server's two frames exactly the text the server streamed.
   */
  lemma {:induction false} ClientReadsServerStream(encode: Json -> string, decode: string -> Option<Json>, a: Accepted, text: string)
    requires Lawful(encode, decode)
    ensures SseText(Join(GenerateStream(encode, a, text), ""), decode) == Some(text)
  {
    var l := DataPrefix + encode(ChunkObject(a, text));
    StreamBody(encode, a, text);
    ChunkLineRead(encode, decode, a, text);
    ReadTwoFrames(l, decode, text);
  }

  /** The end-of-stream line is one line, and a `[` follows its `data: ` prefix. */
  lemma DoneLineShape()
    ensures NoLineBreak(DoneLine) && |DoneLine| == 12 && DoneLine[6] == '['
  {
  }

  /** A chunk line and `[DONE]`, each followed by a blank line, read back as the chunk's text. */
  lemma {:induction false} ReadTwoFrames(l: string, decode: string -> Option<Json>, text: string)
    requires NoLineBreak(l) && Classify(l, decode) == if text == [] then Skip else Chunk(Str(text))
    ensures SseText((l + "\n\n") + (DoneLine + "\n\n"), decode) == Some(text)
  {
    var body := (l + "\n\n") + (DoneLine + "\n\n");
    TwoFramesText(l, DoneLine);
    DoneLineShape();
    TwoFramesLines(l, DoneLine);
    assert SplitLines(body) == [l, "", DoneLine, ""];
    CollectFrameLines(l, decode);
    if text != [] {
      assert [Str(text)][1..] == [];
      assert Concat([Str(text)]) == Some(text + []);
      assert text + [] == text;
    }
  }

  // ---------------------------------------------------------------------
  // The request

  /** `build_payload`. */
  function BuildPayload(question: string, stream: bool): (r: Json)
    ensures Get(r, "model", Null) == Some(Str(ServedModel))
    ensures Get(r, "stream", Null) == Some(Bool(stream)) && Get(r, "citations", Null) == Some(Bool(false))
  {
    Object(map[
      "model" := Str(ServedModel),
      "messages" := Array([Object(map["role" := Str("user"), "content" := Str(question)])]),
      "stream" := Bool(stream),
      "citations" := Bool(false)])
  }

  /** The `messages` of a request body, as the request model reads them: objects with a string role and content. */
  function MessagesOf(body: Json): Option<seq<ChatMessage>> {
    match Get(body, "messages", Null)
    case Some(Array(items)) => MessagesFrom(items)
    case _ => None
  }

  function MessagesFrom(items: seq<Json>): Option<seq<ChatMessage>> {
    if items == [] then Some([])
    else
      var item := items[0];
      if item.Object? && "role" in item.fields && item.fields["role"].Str?
         && "content" in item.fields && item.fields["content"].Str? then
        match MessagesFrom(items[1..])
        case None => None
        case Some(rest) => Some([ChatMessage(item.fields["role"].s, item.fields["content"].s)] + rest)
      else None
  }

  /**
   * The client's payload asks the server for the model it lists, and the
   * server answers the client's question: it is the last user message.
   */
  lemma {:induction false} PayloadAsksQuestion(question: string, stream: bool)
    ensures var body := BuildPayload(question, stream);
      && MessagesOf(body) == Some([ChatMessage("user", question)])
      && LastUserMessage(MessagesOf(body).value) == Some(question)
      && Get(body, "model", Null) == Get(First(Get(Models(), "data", Null).value).value, "id", Null)
  {
    var body := BuildPayload(question, stream);
    var item := Object(map["role" := Str("user"), "content" := Str(question)]);
    assert Get(body, "messages", Null) == Some(Array([item]));
    assert [item][1..] == [];
    assert MessagesFrom([item]) == Some([ChatMessage("user", question)] + []);
    assert [ChatMessage("user", question)] + [] == [ChatMessage("user", question)];
  }
}
