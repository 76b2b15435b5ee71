/** The `ChatApp` component (build-google-gemini/src/components/ChatBox.jsx)
    as an object whose fields are its four pieces of React state. Each
    handler updates the fields step by step, as the state setters do, and is
    specified by the matching transition in module Conversation. */
module ChatBox {
  import opened JsBuiltins
  import opened Reply
  import opened Conversation

  class ChatApp {
    var prompt: string
    var loading: bool
    var response: Option<Response>
    var messages: seq<Turn>

    /** The component's state as a value. */
    function Snapshot(): State
      reads this
    {
      State(prompt, loading, response, messages)
    }

    /** Lines 4-7. */
    constructor ()
      ensures Snapshot() == Initial
      ensures Valid(Snapshot())
    {
      prompt := "";
      loading := false;
      response := None;
      messages := [];
    }

    /** `setPrompt`: the textarea's onChange (line 190) and the first half of
        `handleFollowUp` (line 95). */
    method SetPrompt(text: string)
      requires Valid(Snapshot())
      modifies this
      ensures Snapshot() == old(Snapshot()).(prompt := text)
      ensures Valid(Snapshot())
    {
      prompt := text;
    }

    /** Lines 19-28 of `handleChat`: returns whether the request is sent. */
    method Begin(hasKey: bool) returns (accepted: bool)
      requires Valid(Snapshot()) && !loading
      modifies this
      ensures Snapshot() == Conversation.Begin(old(Snapshot()), hasKey)
      ensures accepted <==> !IsBlank(old(prompt)) && hasKey
      ensures accepted <==> loading
      ensures Valid(Snapshot())
    {
      ghost var before := Snapshot();
      BeginPreservesValid(before, hasKey);
      if Trim(prompt) == "" {
        assert Conversation.Begin(before, hasKey) == before;
        return false;
      }
      if !hasKey {
        response := Some(Response(false, None, Some(MissingKeyError)));
        assert Conversation.Begin(before, hasKey) == Snapshot();
        return false;
      }
      messages := messages + [Turn(User, prompt, None, false)];
      loading := true;
      response := None;
      accepted := true;
      assert !IsBlank(before.prompt) && before.prompt == prompt;
      assert Snapshot() == before.(messages := before.messages + [UserTurn(prompt)], loading := true, response := None);
    }

    /** Lines 51-84 of `handleChat`, once the request has its outcome. */
    method Complete(outcome: Outcome, decode: Decoder)
      requires Valid(Snapshot()) && loading
      modifies this
      ensures Snapshot() == Conversation.Complete(old(Snapshot()), outcome, decode)
      ensures Valid(Snapshot())
    {
      CompletePreservesValid(Snapshot(), outcome, decode);
      match outcome {
        case Received(candidate) =>
          var text := ReplyText(candidate);
          var structured := Structure(text, decode);
          response := Some(Response(true, Some(structured), None));
          messages := messages + [Turn(Ai, structured.answer, structured.followup, false)];
        case _ =>
          response := Some(Response(false, None, Some(ErrorMessage(outcome))));
          messages := messages + [Turn(Ai, ErrorReply, None, true)];
      }
      loading := false;
      prompt := "";
    }

    /** The whole of `handleChat`, with the request ending in `outcome`. */
    method HandleChat(hasKey: bool, outcome: Outcome, decode: Decoder)
      requires Valid(Snapshot()) && !loading
      modifies this
      ensures Snapshot() == Submit(old(Snapshot()), hasKey, outcome, decode)
      ensures Valid(Snapshot())
    {
      var accepted := Begin(hasKey);
      if accepted {
        Complete(outcome, decode);
      }
    }

    /** Lines 94-99: put the question into the prompt and click the send
        button, which does nothing while it is disabled by `loading`. */
    method HandleFollowUp(question: string, hasKey: bool, outcome: Outcome, decode: Decoder)
      requires Valid(Snapshot())
      modifies this
      ensures old(loading) ==> Snapshot() == old(Snapshot()).(prompt := question)
      ensures !old(loading) ==> Snapshot() == Submit(old(Snapshot()).(prompt := question), hasKey, outcome, decode)
      ensures Valid(Snapshot())
    {
      SetPrompt(question);
      if !loading {
        HandleChat(hasKey, outcome, decode);
      }
    }
  }
}
