/**
 * The persistence hooks around a crew run: before the run the user's turn is
 * written to the conversation log, after it the last task's answer is. The
 * run itself (the guardrail, retrieval and answering agents) is not modelled;
 * its output is a value handed to the after-hook.
 */
module Crew {
  import opened Wrappers
  import opened Conversation

  /** The output of one task of the crew. */
  datatype TaskOutput = TaskOutput(raw: string)

  /** A finished run: its final text and the outputs of its tasks, in task order. */
  datatype CrewOutput = CrewOutput(raw: string, tasksOutput: seq<TaskOutput>)

  const DefaultChat := "default_chat"

  /** `d.get(key, default)`. */
  function Get(d: map<string, string>, key: string, default: string): string {
    if key in d then d[key] else default
  }

  /**
   * The text the after-hook stores for a run, if any: the last task's raw
   * output, when there is a result, it has task outputs, and that text is
   * not empty.
   */
  function AssistantTurn(result: Option<CrewOutput>): Option<string> {
    if result.Some? && result.value.tasksOutput != [] then
      var last := result.value.tasksOutput[|result.value.tasksOutput| - 1];
      if last.raw != [] then Some(last.raw) else None
    else None
  }

  /**
   * Only the last task's output can be stored: the outputs of the earlier
   * tasks (guardrail, retrieval) and the run's own text have no effect.
   */
  lemma {:induction false} OnlyLastTaskStored(raw1: string, raw2: string, earlier1: seq<TaskOutput>, earlier2: seq<TaskOutput>, last: TaskOutput)
    ensures AssistantTurn(Some(CrewOutput(raw1, earlier1 + [last])))
         == AssistantTurn(Some(CrewOutput(raw2, earlier2 + [last])))
         == if last.raw == [] then None else Some(last.raw)
  {
  }

  /** Whatever is stored is the text of one of the run's tasks and is not empty. */
  lemma {:induction false} StoredTurnIsATaskOutput(result: Option<CrewOutput>)
    ensures AssistantTurn(result).Some? ==>
      AssistantTurn(result).value != [] && exists t :: t in result.value.tasksOutput && t.raw == AssistantTurn(result).value
    ensures result.None? || result.value.tasksOutput == [] ==> AssistantTurn(result).None?
  {
    if AssistantTurn(result).Some? {
      var ts := result.value.tasksOutput;
      assert ts[|ts| - 1] in ts;
    }
  }

  /** The crew object; `sessionData` carries the chat id from the before-hook to the after-hook. */
  class PolicyCrew {
    var sessionData: map<string, string>
    const store: ChatStore

    constructor(store: ChatStore)
      ensures sessionData == map[] && this.store == store
    {
      sessionData := map[];
      this.store := store;
    }

    /** The chat the after-hook writes to. */
    function SessionChat(): string
      reads this
    {
      Get(sessionData, "chat_id", DefaultChat)
    }

    /**
     * `prepare_inputs`: record the chat id and query, store the user's turn
     * (skipped for an empty query), and hand the inputs on unchanged.
     */
    method PrepareInputs(inputs: map<string, string>) returns (r: map<string, string>)
      requires store.Valid()
      modifies this, store
      ensures store.Valid()
      ensures r == inputs
      ensures var chatId, query := Get(inputs, "chat_id", DefaultChat), Get(inputs, "query", "");
        && sessionData == map["chat_id" := chatId, "query" := query]
        && (query == [] ==> unchanged(store))
        && (query != [] ==>
              && store.sessions == old(store.sessions) + {chatId}
              && store.logs == old(store.logs)[chatId := old(store.Log(chatId)) + [Message("user", query)]]
              && store.unfiled == old(store.unfiled))
    {
      var chatId := Get(inputs, "chat_id", DefaultChat);
      var query := Get(inputs, "query", "");
      sessionData := map["chat_id" := chatId, "query" := query];
      var conversation := new ConversationTool(None);
      var _ := conversation.Run(store, chatId, Some(query), "user", 3);
      return inputs;
    }

    /**
     * `store_assistant_response`: store at most one `assistant` row, in the
     * chat recorded by the before-hook, and return the result unchanged. A
     * refused insert (an unknown session) changes nothing.
     */
    method StoreAssistantResponse(result: Option<CrewOutput>) returns (r: Option<CrewOutput>)
      requires store.Valid()
      modifies store
      ensures store.Valid() && store.sessions == old(store.sessions) && store.unfiled == old(store.unfiled)
      ensures r == result
      ensures var chatId := SessionChat();
        match AssistantTurn(result)
        case None => store.logs == old(store.logs)
        case Some(text) =>
          store.logs == if chatId in old(store.sessions)
                        then old(store.logs)[chatId := old(store.Log(chatId)) + [Message("assistant", text)]]
                        else old(store.logs)
    {
      if result.Some? && result.value.tasksOutput != [] {
        var chatId := SessionChat();
        var conversation := new ConversationTool(None);
        var tasks := result.value.tasksOutput;
        var finalTaskOutput := tasks[|tasks| - 1];
        if finalTaskOutput.raw != [] {
          conversation.defaultChatId := Some(chatId);
          var _ := conversation.StoreAssistantResponse(store, finalTaskOutput.raw);
        }
      }
      return result;
    }

    /**
     * One kickoff: the before-hook, the run (whose output is `output`), then
     * the after-hook. With a non-empty query the chat's log grows by the
     * user's turn and then by at most the answer; nothing else is written.
     */
    method Kickoff(inputs: map<string, string>, output: Option<CrewOutput>) returns (r: Option<CrewOutput>)
      requires store.Valid()
      modifies this, store
      ensures store.Valid() && r == output
      ensures var chatId, query := Get(inputs, "chat_id", DefaultChat), Get(inputs, "query", "");
        var answer := match AssistantTurn(output)
                      case None => []
                      case Some(text) => [Message("assistant", text)];
        && store.unfiled == old(store.unfiled)
        && (query != [] ==>
              && store.sessions == old(store.sessions) + {chatId}
              && store.logs == old(store.logs)[chatId := old(store.Log(chatId)) + [Message("user", query)] + answer])
        && (query == [] ==>
              && store.sessions == old(store.sessions)
              && store.logs == if answer != [] && chatId in old(store.sessions)
                               then old(store.logs)[chatId := old(store.Log(chatId)) + answer]
                               else old(store.logs))
    {
      var chatId, query := Get(inputs, "chat_id", DefaultChat), Get(inputs, "query", "");
      var _ := PrepareInputs(inputs);
      assert SessionChat() == chatId;
      var middle := store.Log(chatId);
      assert query != [] ==> chatId in store.sessions && middle == old(store.Log(chatId)) + [Message("user", query)];
      assert query == [] ==> middle == old(store.Log(chatId));
      label Prepared:
      r := StoreAssistantResponse(output);
      if query != [] {
        if AssistantTurn(output).Some? {
          assert old@Prepared(store.logs) == old(store.logs)[chatId := middle];
        } else {
          assert middle + [] == middle;
        }
      }
    }
  }
}
