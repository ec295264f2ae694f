/**
 * The HTTP layer of the chat-completions endpoint: the session id taken
 * from the `pga4_session` cookie, the chat id chosen from the cookie, the
 * request body or a fresh id, the user message answered, and the two
 * server-sent-event frames the answer is streamed in. Randomness (the
 * `uuid4` hex strings) and the clock are parameters.
 */
module Service {
  import opened Wrappers
  import opened Text
  import opened TextFacts
  import opened Json

  // ---------------------------------------------------------------------
  // The pga4_session cookie

  const SessionKey := "pga4_session="

  /** `pga4_session=([^;]+)` matches at `i`: the key, then at least one character other than `;`. */
  predicate MatchesAt(h: string, i: int) {
    IsAt(h, SessionKey, i) && i + |SessionKey| < |h| && h[i + |SessionKey|] != ';'
  }

  /** `re.search`: the leftmost position, from `from` on, where the pattern matches. */
  function FirstMatch(h: string, from: nat): (r: Option<nat>)
    ensures r.Some? ==> from <= r.value && MatchesAt(h, r.value)
    ensures forall j :: from <= j && (r.None? || j < r.value) ==> !MatchesAt(h, j)
    decreases |h| - from
  {
    if from >= |h| then None
    else if MatchesAt(h, from) then Some(from)
    else FirstMatch(h, from + 1)
  }

  /** The longest prefix of `s` without `c`: what the greedy `[^c]+` captures. */
  function UpTo(s: string, c: char): (r: string)
    ensures StartsWith(s, r) && c !in r
    ensures |r| < |s| ==> s[|r|] == c
  {
    if s == [] || s[0] == c then []
    else
      var r := UpTo(s[1..], c);
      assert s[..1 + |r|] == [s[0]] + s[1..][..|r|];
      [s[0]] + r
  }

  /** `s.strip(c)`: every leading and trailing `c` removed. */
  function StripChar(s: string, c: char): (r: string)
    ensures r != [] ==> r[0] != c && r[|r| - 1] != c
    ensures forall x :: x in r ==> x in s
    decreases |s|
  {
    if s == [] then []
    else if s[0] == c then StripChar(s[1..], c)
    else if s[|s| - 1] == c then StripChar(s[..|s| - 1], c)
    else s
  }

  /**
   * `extract_pga4_session_from_cookie`: the captured value with surrounding
   * `"` removed and cut at the first `!`; `None` for an empty header or
   * when the pattern does not match.
   */
  function ExtractSession(header: string): Option<string> {
    if header == [] then None
    else match FirstMatch(header, 0)
      case None => None
      case Some(i) =>
        var v := StripChar(UpTo(header[i + |SessionKey|..], ';'), '"');
        Some(if '!' in v then Split(v, "!")[0] else v)
  }

  /** No session is found exactly when the pattern matches nowhere. */
  lemma {:induction false} ExtractNoneIff(header: string)
    ensures ExtractSession(header).None? <==> forall i :: !MatchesAt(header, i)
  {
    if header != [] && FirstMatch(header, 0).Some? {
      assert MatchesAt(header, FirstMatch(header, 0).value);
    }
  }

  /** An extracted session has no `;` and no `!`, and does not start with `"`. */
  lemma {:induction false} ExtractedShape(header: string)
    ensures ExtractSession(header).Some? ==>
      var v := ExtractSession(header).value;
      ';' !in v && '!' !in v && (v != [] ==> v[0] != '"')
  {
    if header != [] && FirstMatch(header, 0).Some? {
      var i := FirstMatch(header, 0).value;
      var sv := StripChar(UpTo(header[i + |SessionKey|..], ';'), '"');
      if '!' in sv {
        var piece := Split(sv, "!")[0];
        SplitHeadIsPrefix(sv, "!");
        SplitPiecesAreFree(sv, "!");
        IsAtChar(piece, '!');
        assert forall x :: x in piece ==> x in sv;
        if piece != [] {
          assert piece[0] == sv[0];
        }
      }
    }
  }

  /** `UpTo` passes over a part without `c`. */
  lemma {:induction false} UpToConcat(a: string, b: string, c: char)
    requires c !in a
    ensures UpTo(a + b, c) == a + UpTo(b, c)
  {
    if a != [] {
      var s := a + b;
      assert s[0] == a[0] && a[0] != c;
      assert s[1..] == a[1..] + b;
      assert c !in a[1..];
      UpToConcat(a[1..], b, c);
      assert UpTo(s, c) == [s[0]] + UpTo(s[1..], c);
      assert a + UpTo(b, c) == [a[0]] + (a[1..] + UpTo(b, c));
    } else {
      assert a + b == b;
    }
  }

  /**
   * Stripping `c` from `v + t`, both starting with another character, keeps
   * `v` and a non-empty front of `t`.
   */
  lemma {:induction false} StripCharKeepsFront(v: string, t: string, c: char) returns (m: nat)
    requires v != [] && v[0] != c && t != [] && t[0] != c
    ensures 1 <= m <= |t| && StripChar(v + t, c) == v + t[..m]
    decreases |t|
  {
    var s := v + t;
    assert s[0] == v[0];
    if s[|s| - 1] == c {
      assert |t| >= 2;
      assert s[..|s| - 1] == v + t[..|t| - 1];
      m := StripCharKeepsFront(v, t[..|t| - 1], c);
      assert t[..|t| - 1][..m] == t[..m];
    } else {
      m := |t|;
      assert t[..m] == t;
    }
  }

  /** Behind a prefix without the key, the pattern first matches where the key is. */
  lemma {:induction false} MatchAfterFreePrefix(pre: string, v: string, post: string)
    requires !Occurs(pre, SessionKey) && v != [] && v[0] != ';'
    ensures var h := pre + SessionKey + (v + post);
      FirstMatch(h, 0) == Some(|pre|) && h[|pre| + |SessionKey|..] == v + post
  {
    var h := pre + SessionKey + (v + post);
    assert LastCharUnique(SessionKey);
    FindAfterFreePrefix(pre, SessionKey, v + post);
    FindIsFirst(h, SessionKey);
    assert h[|pre| + |SessionKey|..] == v + post;
    assert MatchesAt(h, |pre|);
  }

  /** The captured run of a clean value, stripped of `"` and cut at `!`, is the value. */
  lemma {:induction false} CleanValueKept(v: string, post: string)
    requires v != [] && ';' !in v && '!' !in v && v[0] != '"' && v[|v| - 1] != '"'
    requires post == [] || post[0] == ';' || post[0] == '!'
    ensures var sv := StripChar(UpTo(v + post, ';'), '"');
      (if '!' in sv then Split(sv, "!")[0] else sv) == v
  {
    UpToConcat(v, post, ';');
    var t := UpTo(post, ';');
    if post == [] || post[0] == ';' {
      assert v + t == v;
    } else {
      var m := StripCharKeepsFront(v, t, '"');
      CutAtBang(v, t[..m]);
    }
  }

  /** Cutting `v + t` at its first `!`, when `t` starts with one and `v` has none, leaves `v`. */
  lemma {:induction false} CutAtBang(v: string, t: string)
    requires '!' !in v && t != [] && t[0] == '!'
    ensures '!' in v + t && Split(v + t, "!")[0] == v
  {
    var w := v + t;
    assert w[|v|] == '!';
    FindCharConcat(v, t, '!');
    assert Lacks(v, '!');
    LacksNoOccurrence(v, '!');
    FindNone(v, "!");
    assert t[..1] == "!";
    assert Find(w, "!") == |v|;
    SplitAt(w, "!");
    assert w[..|v|] == v;
  }

  /**
   * Round trip: a cookie header carrying `pga4_session=v` (with no earlier
   * `pga4_session=` in it, and `v` free of `;`, `!` and surrounding `"`)
   * gives `v` back, whether `v` is followed by the end, by `;` and the next
   * cookie, or by `!` and a signature.
   */
  lemma {:induction false} ExtractRoundTrip(pre: string, v: string, post: string)
    requires !Occurs(pre, SessionKey)
    requires v != [] && ';' !in v && '!' !in v && v[0] != '"' && v[|v| - 1] != '"'
    requires post == [] || post[0] == ';' || post[0] == '!'
    ensures ExtractSession(pre + SessionKey + v + post) == Some(v)
  {
    var h := pre + SessionKey + (v + post);
    assert h == pre + SessionKey + v + post;
    MatchAfterFreePrefix(pre, v, post);
    CleanValueKept(v, post);
  }

  // ---------------------------------------------------------------------
  // The chat id

  /** Python truthiness of an optional string. */
  predicate Present(s: Option<string>) {
    s.Some? && s.value != []
  }

  /** `s[:n]`. */
  function Prefix(s: string, n: nat): (r: string)
    ensures |r| == if |s| <= n then |s| else n
    ensures StartsWith(s, r)
  {
    if |s| <= n then s else s[..n]
  }

  /** `f"chat_{uuid.uuid4().hex[:16]}"`, with the uuid's hex digits as a parameter. */
  function FreshChatId(hex: string): (r: string)
    ensures |hex| >= 16 ==> |r| == 21 && r[5..] == hex[..16]
    ensures StartsWith(r, "chat_")
  {
    "chat_" + Prefix(hex, 16)
  }

  /** `pga4_session or body.chat_id or <fresh id>`. */
  function ResolveChatId(session: Option<string>, bodyChatId: Option<string>, hex: string): (r: string)
    ensures r != []
    ensures Present(session) ==> r == session.value
    ensures !Present(session) && Present(bodyChatId) ==> r == bodyChatId.value
    ensures !Present(session) && !Present(bodyChatId) ==> r == FreshChatId(hex)
  {
    if Present(session) then session.value
    else if Present(bodyChatId) then bodyChatId.value
    else FreshChatId(hex)
  }

  // ---------------------------------------------------------------------
  // The request

  datatype ChatMessage = ChatMessage(role: string, content: string)

  /** The fields of the request body the endpoint uses. */
  datatype ChatRequest = ChatRequest(model: string, messages: seq<ChatMessage>, chatId: Option<string>, stream: bool)

  /** `next((m.content for m in reversed(messages) if m.role == "user"), None)`. */
  function LastUserMessage(messages: seq<ChatMessage>): Option<string> {
    if messages == [] then None
    else if messages[|messages| - 1].role == "user" then Some(messages[|messages| - 1].content)
    else LastUserMessage(messages[..|messages| - 1])
  }

  /** Without any `user` message there is nothing to answer. */
  lemma {:induction false} NoUserMessageIff(messages: seq<ChatMessage>)
    ensures LastUserMessage(messages).None? <==> forall i :: 0 <= i < |messages| ==> messages[i].role != "user"
  {
    if messages != [] {
      var init := messages[..|messages| - 1];
      NoUserMessageIff(init);
      assert forall i :: 0 <= i < |init| ==> init[i] == messages[i];
    }
  }

  /** The message answered is the last `user` one, whatever follows it. */
  lemma {:induction false} LastUserMessageAt(messages: seq<ChatMessage>, k: nat)
    requires k < |messages| && messages[k].role == "user"
    requires forall j :: k < j < |messages| ==> messages[j].role != "user"
    ensures LastUserMessage(messages) == Some(messages[k].content)
  {
    if k < |messages| - 1 {
      var init := messages[..|messages| - 1];
      LastUserMessageAt(init, k);
    }
  }

  datatype HttpError = HttpError(status: int, detail: string)

  /** `str(HTTPException(...))`: the status code, a colon and the detail. */
  function HttpErrorText(e: HttpError): string {
    IntToString(e.status) + ": " + e.detail
  }

  const NoUserMessage := "No user message found"

  /** What an accepted request hands on: the crew's inputs and the fixed fields of the stream. */
  datatype Accepted = Accepted(inputs: map<string, string>, responseId: string, created: int, model: string)

  /**
   * `chat_completions` up to the streaming response. The 400 raised when
   * there is no user message is inside the `try`, so its own handler turns
   * it into a 500 carrying the 400's text.
   */
  function ChatCompletions(request: ChatRequest, cookieHeader: string, chatHex: string, responseHex: string, now: int): Result<Accepted, HttpError> {
    var chatId := ResolveChatId(ExtractSession(cookieHeader), request.chatId, chatHex);
    var userMessage := LastUserMessage(request.messages);
    if !Present(userMessage) then
      Err(HttpError(500, "Error: " + HttpErrorText(HttpError(400, NoUserMessage))))
    else
      Ok(Accepted(map["query" := userMessage.value, "chat_id" := chatId], "chatcmpl-" + Prefix(responseHex, 29), now, request.model))
  }

  /**
   * The request is accepted exactly when the last `user` message is
   * non-empty; it is that message the crew is asked, in the chat the cookie
   * names when it names one. An empty last user message is refused even
   * when an earlier one is not.
   */
  lemma {:induction false} CompletionOutcome(request: ChatRequest, cookieHeader: string, chatHex: string, responseHex: string, now: int, k: nat)
    requires k < |request.messages| && request.messages[k].role == "user"
    requires forall j :: k < j < |request.messages| ==> request.messages[j].role != "user"
    ensures var r := ChatCompletions(request, cookieHeader, chatHex, responseHex, now);
      && (request.messages[k].content == [] ==> r == Err(HttpError(500, "Error: 400: " + NoUserMessage)))
      && (request.messages[k].content != [] ==>
            && r.Ok?
            && r.value.inputs["query"] == request.messages[k].content
            && r.value.inputs["chat_id"] == ResolveChatId(ExtractSession(cookieHeader), request.chatId, chatHex)
            && StartsWith(r.value.responseId, "chatcmpl-")
            && (|responseHex| >= 29 ==> |r.value.responseId| == 38 && r.value.responseId[9..] == responseHex[..29])
            && r.value.created == now && r.value.model == request.model)
  {
    LastUserMessageAt(request.messages, k);
    RefusalText();
  }

  /** The detail of the 500 that replaces the 400. */
  lemma {:induction false} RefusalText()
    ensures "Error: " + HttpErrorText(HttpError(400, NoUserMessage)) == "Error: 400: " + NoUserMessage
  {
    StatusText();
    assert "Error: " + "400" + ": " == "Error: 400: ";
  }

  lemma {:induction false} StatusText()
    ensures IntToString(400) == "400"
  {
    assert NatToString(4) == "4";
    assert NatToString(40) == NatToString(4) + [DigitChar(0)] == "40";
    assert NatToString(400) == NatToString(40) + [DigitChar(0)] == "400";
  }

  /** A request without any `user` message is refused with the same 500. */
  lemma {:induction false} NoUserMessageRefused(request: ChatRequest, cookieHeader: string, chatHex: string, responseHex: string, now: int)
    requires forall i :: 0 <= i < |request.messages| ==> request.messages[i].role != "user"
    ensures ChatCompletions(request, cookieHeader, chatHex, responseHex, now) == Err(HttpError(500, "Error: 400: " + NoUserMessage))
  {
    NoUserMessageIff(request.messages);
    RefusalText();
  }

  /**
   * A cookie carrying `pga4_session=v` decides the chat, whatever chat id
   * the body names.
   */
  lemma {:induction false} CookieSessionIsChat(pre: string, v: string, post: string, request: ChatRequest, chatHex: string, responseHex: string, now: int)
    requires !Occurs(pre, SessionKey)
    requires v != [] && ';' !in v && '!' !in v && v[0] != '"' && v[|v| - 1] != '"'
    requires post == [] || post[0] == ';' || post[0] == '!'
    ensures var r := ChatCompletions(request, pre + SessionKey + v + post, chatHex, responseHex, now);
      r.Ok? ==> r.value.inputs["chat_id"] == v
  {
    ExtractRoundTrip(pre, v, post);
  }

  // ---------------------------------------------------------------------
  // The stream

  const DataPrefix := "data: "
  const DoneFrame := "data: [DONE]\n\n"

  /** `result.raw` when the run has a non-empty one, else `str(result)`. */
  function ResponseText(raw: string, shown: string): (r: string)
    ensures raw != [] ==> r == raw
    ensures raw == [] ==> r == shown
    ensures r == [] <==> raw == [] && shown == []
  {
    if raw != [] then raw else shown
  }

  /** The one `chat.completion.chunk` object, carrying the whole answer as its delta. */
  function ChunkObject(a: Accepted, text: string): (r: Json)
    ensures Get(r, "id", Null) == Some(Str(a.responseId)) && Get(r, "model", Null) == Some(Str(a.model))
    ensures Get(r, "created", Null) == Some(Int(a.created))
    ensures Get(r, "object", Null) == Some(Str("chat.completion.chunk"))
    ensures var choice := First(Get(r, "choices", Null).value);
      && choice.Some?
      && Get(choice.value, "index", Null) == Some(Int(0))
      && Get(choice.value, "delta", Null) == Some(Object(map["role" := Str("assistant"), "content" := Str(text)]))
  {
    Object(map[
      "id" := Str(a.responseId),
      "object" := Str("chat.completion.chunk"),
      "created" := Int(a.created),
      "model" := Str(a.model),
      "choices" := Array([Object(map[
        "index" := Int(0),
        "delta" := Object(map["role" := Str("assistant"), "content" := Str(text)])])])])
  }

  /** `generate_stream`: the chunk frame, then the `[DONE]` frame. */
  function GenerateStream(encode: Json -> string, a: Accepted, text: string): (r: seq<string>)
    ensures |r| == 2 && r[1] == DoneFrame
    ensures forall k :: 0 <= k < |r| ==> StartsWith(r[k], DataPrefix) && |r[k]| >= 8 && r[k][|r[k]| - 2..] == "\n\n"
    ensures r[0][|DataPrefix|..|r[0]| - 2] == encode(ChunkObject(a, text))
  {
    [DataPrefix + encode(ChunkObject(a, text)) + "\n\n", DoneFrame]
  }

  const ServedModel := "dge-policy-rag"

  /** `/v1/models`: the single model the service serves. */
  function Models(): (r: Json)
    ensures Get(r, "object", Null) == Some(Str("list"))
    ensures var data := Get(r, "data", Null);
      data.Some? && data.value.Array? && |data.value.items| == 1
      && Get(data.value.items[0], "id", Null) == Some(Str(ServedModel))
      && Get(data.value.items[0], "object", Null) == Some(Str("model"))
      && Get(data.value.items[0], "max_tokens", Null) == Some(Int(131072))
      && Get(data.value.items[0], "context_length", Null) == Some(Int(131072))
  {
    Object(map[
      "object" := Str("list"),
      "data" := Array([Object(map[
        "id" := Str(ServedModel),
        "object" := Str("model"),
        "created" := Int(1690000000),
        "owned_by" := Str("organization"),
        "permission" := Array([]),
        "root" := Str(ServedModel),
        "parent" := Null,
        "max_tokens" := Int(131072),
        "context_length" := Int(131072),
        "capabilities" := Object(map["completion" := Bool(true), "chat_completion" := Bool(true)])])])])
  }
}
