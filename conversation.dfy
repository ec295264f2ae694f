/**
 * The conversation log: the `chat_sessions` and `chat_messages` tables, and
 * the conversation tool that reads recent history from them and appends
 * turns to them. The order in which rows were appended stands in for their
 * `created_at` timestamps.
 */
module Conversation {
  import opened Wrappers
  import opened Text

  /** A `chat_messages` row, without its chat id and timestamp. */
  datatype Message = Message(role: string, message: string)

  /** What `get_conversation_context` returns when there is nothing to show. */
  const NoHistory := "No conversation history found"

  /** The statements the database refuses in this model. */
  datatype DbFailure =
    | NegativeLimit                  // `LIMIT -n` is an error in Postgres
    | UnknownSession(chatId: string) // `chat_messages.chat_id` references `chat_sessions`

  /** `str(e)` for a refused statement; only the `Error: ` prefix added to it is relied upon. */
  function Describe(f: DbFailure): string {
    match f
    case NegativeLimit => "LIMIT must not be negative"
    case UnknownSession(id) =>
      "insert or update on table \"chat_messages\" violates foreign key constraint: Key (chat_id)=("
      + id + ") is not present in table \"chat_sessions\""
  }

  /** `f"Error: {str(e)}"`, the text the tool returns instead of raising. */
  function ErrorText(f: DbFailure): string {
    "Error: " + Describe(f)
  }

  /** `reversed(...)`. */
  function Reverse<T>(s: seq<T>): (r: seq<T>)
    ensures |r| == |s|
    ensures forall i :: 0 <= i < |s| ==> r[i] == s[|s| - 1 - i]
  {
    if s == [] then [] else Reverse(s[1..]) + [s[0]]
  }

  /** `ORDER BY created_at DESC LIMIT limit` over the rows of one chat. */
  function NewestFirst(log: seq<Message>, limit: nat): seq<Message> {
    var desc := Reverse(log);
    if limit < |desc| then desc[..limit] else desc
  }

  /** The last `limit` messages of a chat in the order they were written. */
  function Recent(log: seq<Message>, limit: nat): (r: seq<Message>)
    ensures |r| <= limit && |r| <= |log|
  {
    if limit < |log| then log[|log| - limit..] else log
  }

  /** `f"{role}: {msg}"`. */
  function Line(m: Message): string {
    m.role + ": " + m.message
  }

  function LinesOf(rows: seq<Message>): (r: seq<string>)
    ensures |r| == |rows|
    ensures forall i :: 0 <= i < |rows| ==> r[i] == Line(rows[i])
  {
    seq(|rows|, i requires 0 <= i < |rows| => Line(rows[i]))
  }

  /** `"\n".join(... for role, msg in reversed(messages)) or NoHistory`, for rows fetched newest first. */
  function HistoryText(fetched: seq<Message>): string {
    var joined := Join(LinesOf(Reverse(fetched)), "\n");
    if joined == [] then NoHistory else joined
  }

  /** What `_run` returns after storing `m`, given the context it read first. */
  function WithTurn(context: string, m: Message): string {
    if context != NoHistory then context + "\n" + Line(m) else Line(m)
  }

  /** A message that `if message:` lets through. */
  predicate Given(message: Option<string>) {
    message.Some? && message.value != []
  }

  /** Reversing the rows fetched newest first gives the last `limit` messages, oldest first. */
  lemma {:induction false} RecentIsReversedNewest(log: seq<Message>, limit: nat)
    ensures Reverse(NewestFirst(log, limit)) == Recent(log, limit)
  {
    var desc := Reverse(log);
    var fetched := NewestFirst(log, limit);
    var r := Reverse(fetched);
    var e := Recent(log, limit);
    assert |r| == |e|;
    forall i | 0 <= i < |r| ensures r[i] == e[i] {
      assert r[i] == fetched[|fetched| - 1 - i] == desc[|fetched| - 1 - i];
      assert desc[|fetched| - 1 - i] == log[|log| - |fetched| + i];
    }
  }

  /** A history line always holds the `:` after its role. */
  lemma {:induction false} LineHasColon(m: Message)
    ensures |Line(m)| > |m.role| && Line(m)[|m.role|] == ':'
  {
  }

  /** Joined lines start with the first line. */
  lemma {:induction false} JoinStartsWithFirst(lines: seq<string>, sep: string)
    requires lines != []
    ensures StartsWith(Join(lines, sep), lines[0])
  {
    if |lines| > 1 {
      assert Join(lines, sep) == lines[0] + (sep + Join(lines[1..], sep));
    }
  }

  /** `sep.join(lines + [last])`. */
  lemma {:induction false} JoinSnoc(lines: seq<string>, last: string, sep: string)
    ensures Join(lines + [last], sep) == if lines == [] then last else Join(lines, sep) + sep + last
  {
    if |lines| == 1 {
      assert lines + [last] == [lines[0], last];
    } else if |lines| > 1 {
      assert (lines + [last])[1..] == lines[1..] + [last];
      JoinSnoc(lines[1..], last, sep);
    }
  }

  /**
   * The sentinel appears exactly when there are no rows: a history line
   * holds a colon, and the sentinel does not.
   */
  lemma {:induction false} HistoryIsSentinelIff(fetched: seq<Message>)
    ensures HistoryText(fetched) == NoHistory <==> fetched == []
  {
    var rows := Reverse(fetched);
    var lines := LinesOf(rows);
    if fetched != [] {
      var joined := Join(lines, "\n");
      JoinStartsWithFirst(lines, "\n");
      LineHasColon(rows[0]);
      var k := |rows[0].role|;
      assert joined[k] == lines[0][k] == ':';
      assert forall i :: 0 <= i < |NoHistory| ==> NoHistory[i] != ':';
    }
  }

  lemma {:induction false} LinesOfSnoc(rows: seq<Message>, m: Message)
    ensures LinesOf(rows + [m]) == LinesOf(rows) + [Line(m)]
  {
  }

  lemma {:induction false} RecentSnoc(log: seq<Message>, m: Message, limit: nat)
    ensures Recent(log + [m], limit + 1) == Recent(log, limit) + [m]
  {
    var l := log + [m];
    if limit < |log| {
      assert l[|l| - (limit + 1)..] == log[|log| - limit..] + [m];
    }
  }

  /**
   * What `_run` returns after appending `m` is the history a later read with
   * one more row shows: the `limit` earlier messages, then the new one.
   */
  lemma {:induction false} HistoryAfterAppend(log: seq<Message>, m: Message, limit: nat)
    ensures HistoryText(NewestFirst(log + [m], limit + 1)) == WithTurn(HistoryText(NewestFirst(log, limit)), m)
  {
    RecentIsReversedNewest(log + [m], limit + 1);
    RecentIsReversedNewest(log, limit);
    RecentSnoc(log, m, limit);
    var before := Recent(log, limit);
    LinesOfSnoc(before, m);
    JoinSnoc(LinesOf(before), Line(m), "\n");
    HistoryIsSentinelIff(NewestFirst(log, limit));
    assert NewestFirst(log, limit) == [] <==> before == [];
    if before != [] {
      LineHasColon(m);
    }
  }

  /** The history shows at most `limit` messages, the latest ones, oldest first. */
  lemma {:induction false} HistoryShowsRecent(log: seq<Message>, limit: nat)
    ensures HistoryText(NewestFirst(log, limit))
         == if Recent(log, limit) == [] then NoHistory else Join(LinesOf(Recent(log, limit)), "\n")
  {
    RecentIsReversedNewest(log, limit);
    HistoryIsSentinelIff(NewestFirst(log, limit));
    assert NewestFirst(log, limit) == [] <==> Recent(log, limit) == [];
  }

  /**
   * The two tables. `logs` holds each chat's messages in the order they were
   * written; `unfiled` holds rows written with a `NULL` chat id, which no
   * query by chat id ever returns.
   */
  class ChatStore {
    var sessions: set<string>
    var logs: map<string, seq<Message>>
    var unfiled: seq<Message>

    /** The foreign key: every chat that has messages is a known session. */
    ghost predicate Valid()
      reads this
    {
      logs.Keys <= sessions
    }

    constructor()
      ensures Valid()
      ensures sessions == {} && logs == map[] && unfiled == []
    {
      sessions := {};
      logs := map[];
      unfiled := [];
    }

    /** The messages of one chat, oldest first. */
    function Log(chatId: string): seq<Message>
      reads this
    {
      if chatId in logs then logs[chatId] else []
    }

    /** `get_conversation_context(chat_id, limit)`. */
    function Context(chatId: string, limit: int): (r: Result<string, DbFailure>)
      reads this
      ensures r.Err? <==> limit < 0
    {
      if limit < 0 then Err(NegativeLimit) else Ok(HistoryText(NewestFirst(Log(chatId), limit)))
    }

    /**
     * The transaction `_run` commits: the session upsert, which does nothing
     * when the session exists, and then one message row.
     */
    method InsertTurn(chatId: string, m: Message)
      requires Valid()
      modifies this
      ensures Valid()
      ensures sessions == old(sessions) + {chatId}
      ensures logs == old(logs)[chatId := old(Log(chatId)) + [m]]
      ensures unfiled == old(unfiled)
    {
      sessions := sessions + {chatId};
      logs := logs[chatId := Log(chatId) + [m]];
    }

    /**
     * The transaction `store_assistant_response` commits: one message row,
     * refused when the chat id names no session; a `NULL` chat id passes the
     * foreign key.
     */
    method InsertMessage(chatId: Option<string>, m: Message) returns (failure: Option<DbFailure>)
      requires Valid()
      modifies this
      ensures Valid() && sessions == old(sessions)
      ensures chatId.None? ==> failure.None? && logs == old(logs) && unfiled == old(unfiled) + [m]
      ensures chatId.Some? && chatId.value in sessions ==>
        failure.None? && logs == old(logs)[chatId.value := old(Log(chatId.value)) + [m]] && unfiled == old(unfiled)
      ensures chatId.Some? && chatId.value !in sessions ==>
        failure == Some(UnknownSession(chatId.value)) && logs == old(logs) && unfiled == old(unfiled)
    {
      match chatId
      case None =>
        unfiled := unfiled + [m];
        failure := None;
      case Some(id) =>
        if id in sessions {
          logs := logs[id := Log(id) + [m]];
          failure := None;
        } else {
          failure := Some(UnknownSession(id));
        }
    }
  }

  /** The conversation tool; `defaultChatId` is where assistant replies go. */
  class ConversationTool {
    var defaultChatId: Option<string>

    constructor(chatId: Option<string>)
      ensures defaultChatId == chatId
    {
      defaultChatId := chatId;
    }

    /**
     * `_run`: read the recent history, then, when a message is given, store
     * it and return the history followed by it; failures come back as text.
     */
    method Run(db: ChatStore, chatId: string, message: Option<string>, role: string, limit: int) returns (r: string)
      requires db.Valid()
      modifies db
      ensures db.Valid()
      ensures limit < 0 ==> r == ErrorText(NegativeLimit) && unchanged(db)
      ensures limit >= 0 && !Given(message) ==> r == old(db.Context(chatId, limit)).value && unchanged(db)
      ensures limit >= 0 && Given(message) ==>
        && db.sessions == old(db.sessions) + {chatId}
        && db.logs == old(db.logs)[chatId := old(db.Log(chatId)) + [Message(role, message.value)]]
        && db.unfiled == old(db.unfiled)
        && r == WithTurn(old(db.Context(chatId, limit)).value, Message(role, message.value))
    {
      var context := db.Context(chatId, limit);
      if context.Err? {
        return ErrorText(context.error);
      }
      if Given(message) {
        var m := Message(role, message.value);
        db.InsertTurn(chatId, m);
        return WithTurn(context.value, m);
      }
      return context.value;
    }

    /** `store_assistant_response`: one `assistant` row under the default chat id. */
    method StoreAssistantResponse(db: ChatStore, response: string) returns (r: string)
      requires db.Valid()
      modifies db
      ensures db.Valid() && db.sessions == old(db.sessions)
      ensures var m := Message("assistant", response);
        match defaultChatId
        case None => r == "Stored" && db.logs == old(db.logs) && db.unfiled == old(db.unfiled) + [m]
        case Some(id) =>
          if id in old(db.sessions) then
            r == "Stored" && db.logs == old(db.logs)[id := old(db.Log(id)) + [m]] && db.unfiled == old(db.unfiled)
          else
            r == ErrorText(UnknownSession(id)) && db.logs == old(db.logs) && db.unfiled == old(db.unfiled)
    {
      var failure := db.InsertMessage(defaultChatId, Message("assistant", response));
      if failure.Some? {
        return ErrorText(failure.value);
      }
      return "Stored";
    }
  }

  /** A read right after `_run` stored a message shows that message last. */
  lemma {:induction false} StoredTurnIsRead(log: seq<Message>, m: Message, limit: nat)
    requires limit > 0
    ensures var shown := Recent(log + [m], limit);
      shown != [] && shown[|shown| - 1] == m
  {
    RecentSnoc(log, m, limit - 1);
  }
}
