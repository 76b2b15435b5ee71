/** The state of the chat component and its transitions, as values
    (build-google-gemini/src/components/ChatBox.jsx, lines 4-7 and 18-99).
    `handleChat` is split at its one suspension point, the network call:
    Begin runs lines 19-28 and Complete runs lines 51-84 once the request
    has an outcome. The class in chat_box.dfy performs these transitions in
    place and is specified by the functions here. */
module Conversation {
  import opened JsBuiltins
  import opened Reply

  datatype Sender = User | Ai

  /** One entry of `messages`. Properties a turn object does not carry in
      the source (`followup` on user and error turns, `isError` on user and
      successful turns) are None and false, which is how the markup reads
      them. */
  datatype Turn = Turn(sender: Sender, content: string, followup: Option<string>, isError: bool)

  /** The `response` object: `{ success, data, error }`. */
  datatype Response = Response(success: bool, data: Option<StructuredReply>, error: Option<string>)

  /** How the request of one submission ended: the endpoint answered with an
      ok status and `res.json()` gave an object, yielding the text at
      `candidates[0].content.parts[0].text` if that path exists; or the
      status was not ok; or an error with the given message was thrown by
      `fetch`, by `res.json()`, or by line 54 itself when the body is JSON
      `null` (reading `candidates` of `null` throws a TypeError, which the
      outer `catch` at lines 75-80 turns into an error turn). */
  datatype Outcome = Received(candidate: Option<string>) | BadStatus(status: nat) | Thrown(message: string)

  /** The four `useState` values of the component. */
  datatype State = State(prompt: string, loading: bool, response: Option<Response>, messages: seq<Turn>)

  const MissingKeyError := "API key is missing."
  const GenericError := "An error occurred."
  const ErrorReply := "Sorry, I encountered an error. Please try again."

  /** Lines 4-7: nothing typed, not loading, no response, no messages. */
  const Initial := State("", false, None, [])

  /** `!prompt.trim()` (line 19). */
  predicate IsBlank(s: string)
  {
    Trim(s) == ""
  }

  /** `error.message || "An error occurred."` for the two ways the request
      can fail; a bad status throws `API error: <status>` (line 51). */
  function ErrorMessage(outcome: Outcome): (m: string)
    requires !outcome.Received?
    ensures m != ""
    ensures outcome.Thrown? && outcome.message != "" ==> m == outcome.message
    ensures outcome.Thrown? && outcome.message == "" ==> m == GenericError
  {
    match outcome
    case BadStatus(status) => "API error: " + DecimalString(status)
    case Thrown(message) => if message != "" then message else GenericError
  }

  function UserTurn(prompt: string): Turn
  {
    Turn(User, prompt, None, false)
  }

  /** The AI turn and the response that one outcome produces
      (lines 54-80). */
  function ReplyTurn(outcome: Outcome, decode: Decoder): (t: Turn)
    ensures t.sender == Ai && t.content != ""
    ensures t.followup.Some? ==> t.followup.value != ""
    ensures t.isError <==> !outcome.Received?
    ensures t.isError ==> t.content == ErrorReply && t.followup.None?
  {
    match outcome
    case Received(candidate) =>
      var reply := Structure(ReplyText(candidate), decode);
      Turn(Ai, reply.answer, reply.followup, false)
    case _ => Turn(Ai, ErrorReply, None, true)
  }

  function OutcomeResponse(outcome: Outcome, decode: Decoder): (r: Response)
    ensures r.success <==> outcome.Received?
    ensures r.success ==> r.data.Some? && r.error.None?
    ensures !r.success ==> r.data.None? && r.error.Some? && r.error.value != ""
  {
    match outcome
    case Received(candidate) => Response(true, Some(Structure(ReplyText(candidate), decode)), None)
    case _ => Response(false, None, Some(ErrorMessage(outcome)))
  }

  /** Lines 19-28. Only reachable while not loading: the textarea and the
      send button are disabled while loading (lines 192, 197). */
  function Begin(s: State, hasKey: bool): State
    requires !s.loading
  {
    if IsBlank(s.prompt) then s
    else if !hasKey then s.(response := Some(Response(false, None, Some(MissingKeyError))))
    else s.(messages := s.messages + [UserTurn(s.prompt)], loading := true, response := None)
  }

  /** Lines 51-84, run when the request started by Begin has its outcome. */
  function Complete(s: State, outcome: Outcome, decode: Decoder): State
    requires s.loading
  {
    State("", false, Some(OutcomeResponse(outcome, decode)), s.messages + [ReplyTurn(outcome, decode)])
  }

  /** One whole call of `handleChat`, the request ending with `outcome`. */
  function Submit(s: State, hasKey: bool, outcome: Outcome, decode: Decoder): State
    requires !s.loading
  {
    var b := Begin(s, hasKey);
    if b.loading then Complete(b, outcome, decode) else b
  }

  // ---------------------------------------------------------------------
  // The conversation invariant
  // ---------------------------------------------------------------------

  /** Turn `t` is well formed at position `i`: user turns sit at even
      positions and hold a non-blank prompt, AI turns at odd positions and
      hold a non-empty answer (or the fixed error text) and at most a
      non-empty follow-up. */
  predicate WellPlaced(t: Turn, i: nat)
  {
    if i % 2 == 0 then
      t.sender == User && !IsBlank(t.content) && t.followup.None? && !t.isError
    else
      t.sender == Ai && t.content != "" && (t.followup.Some? ==> t.followup.value != "") &&
      (t.isError ==> t.content == ErrorReply && t.followup.None?)
  }

  /** The conversation alternates user and AI turns, one AI turn answering
      each user turn in order, and the component is loading exactly when the
      last user turn still awaits its answer, in which case `response` is
      null. */
  predicate Valid(s: State)
  {
    (s.loading <==> |s.messages| % 2 == 1) &&
    (s.loading ==> s.response.None?) &&
    forall i :: 0 <= i < |s.messages| ==> WellPlaced(s.messages[i], i)
  }

  /** A blank prompt makes `handleChat` return at once (line 19). */
  lemma BlankPromptIsNoOp(s: State, hasKey: bool, outcome: Outcome, decode: Decoder)
    requires !s.loading && IsBlank(s.prompt)
    ensures Submit(s, hasKey, outcome, decode) == s
  {
  }

  /** A whitespace-only prompt counts as blank. */
  lemma WhitespacePromptIsNoOp(s: State, hasKey: bool, outcome: Outcome, decode: Decoder)
    requires !s.loading
    requires forall i :: 0 <= i < |s.prompt| ==> IsWhitespace(s.prompt[i])
    ensures Submit(s, hasKey, outcome, decode) == s
  {
    TrimEmptyIffAllWhitespace(s.prompt);
  }

  /** Without an API key only `response` changes, to the configuration
      error; no turn is appended and `loading` and `prompt` keep their
      values, since the `finally` block is never entered (lines 21-24). */
  lemma MissingKeyOnlySetsResponse(s: State, outcome: Outcome, decode: Decoder)
    requires !s.loading && !IsBlank(s.prompt)
    ensures var t := Submit(s, false, outcome, decode);
            t.response == Some(Response(false, None, Some("API key is missing."))) &&
            t.messages == s.messages && t.loading == s.loading && t.prompt == s.prompt
  {
  }

  /** An accepted submission first appends exactly one user turn holding the
      untrimmed prompt, sets `loading` and clears `response`, leaving every
      earlier turn as it was (lines 26-28). */
  lemma BeginAppendsUserTurn(s: State)
    requires !s.loading && !IsBlank(s.prompt)
    ensures var t := Begin(s, true);
            |t.messages| == |s.messages| + 1 &&
            t.messages[..|s.messages|] == s.messages &&
            t.messages[|s.messages|] == Turn(User, s.prompt, None, false) &&
            t.loading && t.response.None? && t.prompt == s.prompt
  {
  }

  /** Completion appends exactly one AI turn: the structured answer and
      follow-up on success, the fixed error text flagged as an error on
      failure; afterwards `loading` is false and `prompt` is "" whatever the
      outcome (lines 51, 70-84). */
  lemma CompleteAppendsAiTurn(s: State, outcome: Outcome, decode: Decoder)
    requires s.loading
    ensures var t := Complete(s, outcome, decode);
            |t.messages| == |s.messages| + 1 &&
            t.messages[..|s.messages|] == s.messages &&
            t.messages[|s.messages|].sender == Ai &&
            !t.loading && t.prompt == ""
    ensures var t := Complete(s, outcome, decode);
            var turn := t.messages[|s.messages|];
            match outcome
            case Received(candidate) =>
              var reply := Structure(ReplyText(candidate), decode);
              turn.content == reply.answer && turn.followup == reply.followup && !turn.isError &&
              t.response == Some(Response(true, Some(reply), None))
            case _ =>
              turn.content == "Sorry, I encountered an error. Please try again." &&
              turn.isError && turn.followup.None? &&
              t.response == Some(Response(false, None, Some(ErrorMessage(outcome))))
  {
  }

  /** A non-ok status is reported as `API error: <status>`, and the status
      can be read back from the message. */
  lemma BadStatusMessage(status: nat)
    ensures var m := ErrorMessage(BadStatus(status));
            |m| > 11 && m[..11] == "API error: " && DecimalValue(m[11..]) == status
  {
    var m := ErrorMessage(BadStatus(status));
    assert m[11..] == DecimalString(status);
    DecimalRoundTrip(status);
  }

  /** An accepted Begin appends the user turn and starts loading. */
  lemma AcceptedBegin(s: State)
    requires !s.loading && !IsBlank(s.prompt)
    ensures Begin(s, true).messages == s.messages + [UserTurn(s.prompt)] && Begin(s, true).loading
  {
  }

  /** The turns an accepted submission leaves behind: the old ones, the
      user turn, then the AI turn. */
  lemma AcceptedSubmitMessages(s: State, outcome: Outcome, decode: Decoder)
    requires !s.loading && !IsBlank(s.prompt)
    ensures var t := Submit(s, true, outcome, decode);
            t.messages == s.messages + [UserTurn(s.prompt), ReplyTurn(outcome, decode)] &&
            !t.loading && t.prompt == ""
  {
    var user, reply := UserTurn(s.prompt), ReplyTurn(outcome, decode);
    var b := Begin(s, true);
    AcceptedBegin(s);
    var c := Complete(b, outcome, decode);
    assert c.messages == b.messages + [reply] && !c.loading && c.prompt == "";
    assert Submit(s, true, outcome, decode) == c;
    assert s.messages + [user] + [reply] == s.messages + [user, reply];
  }

  /** Every accepted submission adds exactly two turns, the user's prompt and
      then one AI turn, and ends idle with the prompt cleared; any other
      submission adds none. Earlier turns are never modified. */
  lemma SubmitAppendsPair(s: State, hasKey: bool, outcome: Outcome, decode: Decoder)
    requires !s.loading
    ensures var t := Submit(s, hasKey, outcome, decode);
            var accepted := !IsBlank(s.prompt) && hasKey;
            |t.messages| == |s.messages| + (if accepted then 2 else 0) &&
            t.messages[..|s.messages|] == s.messages &&
            !t.loading &&
            (accepted ==> t.messages[|s.messages|] == UserTurn(s.prompt) &&
                          t.messages[|s.messages| + 1] == ReplyTurn(outcome, decode) &&
                          t.prompt == "")
  {
    if IsBlank(s.prompt) {
      BlankPromptIsNoOp(s, hasKey, outcome, decode);
    } else if !hasKey {
      MissingKeyOnlySetsResponse(s, outcome, decode);
    } else {
      AcceptedSubmitMessages(s, outcome, decode);
      var ms := s.messages + [UserTurn(s.prompt), ReplyTurn(outcome, decode)];
      assert ms[..|s.messages|] == s.messages;
    }
  }

  lemma InitialIsValid()
    ensures Valid(Initial)
  {
  }

  lemma NextParity(n: nat)
    ensures (n + 1) % 2 == 1 - n % 2
  {
  }

  /** Appending a turn that is well formed at the next position keeps every
      turn well formed. */
  lemma AppendWellPlaced(ms: seq<Turn>, turn: Turn)
    requires forall i :: 0 <= i < |ms| ==> WellPlaced(ms[i], i)
    requires WellPlaced(turn, |ms|)
    ensures forall i :: 0 <= i < |ms + [turn]| ==> WellPlaced((ms + [turn])[i], i)
  {
    forall i | 0 <= i < |ms + [turn]| ensures WellPlaced((ms + [turn])[i], i) {
      if i < |ms| {
        assert (ms + [turn])[i] == ms[i];
      }
    }
  }

  /** Begin keeps the invariant: the new user turn lands at an even position
      and the component becomes loading with an odd number of turns. */
  lemma BeginPreservesValid(s: State, hasKey: bool)
    requires Valid(s) && !s.loading
    ensures Valid(Begin(s, hasKey))
  {
    if !IsBlank(s.prompt) && hasKey {
      AppendWellPlaced(s.messages, UserTurn(s.prompt));
      NextParity(|s.messages|);
    }
  }

  /** Complete keeps the invariant: the AI turn lands at an odd position and
      the component returns to idle with an even number of turns. */
  lemma CompletePreservesValid(s: State, outcome: Outcome, decode: Decoder)
    requires Valid(s) && s.loading
    ensures Valid(Complete(s, outcome, decode))
  {
    var turn := ReplyTurn(outcome, decode);
    var ms := s.messages + [turn];
    assert WellPlaced(turn, |s.messages|);
    AppendWellPlaced(s.messages, turn);
    NextParity(|s.messages|);
    assert Complete(s, outcome, decode) == State("", false, Some(OutcomeResponse(outcome, decode)), ms);
  }

  // ---------------------------------------------------------------------
  // Runs of user interface events
  // ---------------------------------------------------------------------

  /** What can happen to the component: typing in the textarea (line 190),
      pressing send or Enter (lines 87-92, 196), clicking a follow-up
      suggestion (lines 94-99, 152), and the outstanding request resolving. */
  datatype Event =
    | Edit(text: string)
    | Send(hasKey: bool)
    | FollowUp(question: string, hasKey: bool)
    | Resolve(outcome: Outcome)

  /** The effect of one event. While loading the textarea and the send button
      are disabled, so typing and sending do nothing; a follow-up click still
      sets the prompt but its click on the disabled send button is lost. A
      request resolves only while one is outstanding. */
  function Step(s: State, e: Event, decode: Decoder): State
  {
    match e
    case Edit(text) => if s.loading then s else s.(prompt := text)
    case Send(hasKey) => if s.loading then s else Begin(s, hasKey)
    case FollowUp(question, hasKey) =>
      var t := s.(prompt := question);
      if t.loading then t else Begin(t, hasKey)
    case Resolve(outcome) => if s.loading then Complete(s, outcome, decode) else s
  }

  function Run(s: State, events: seq<Event>, decode: Decoder): State
    decreases |events|
  {
    if events == [] then s else Run(Step(s, events[0], decode), events[1..], decode)
  }

  lemma StepPreservesValid(s: State, e: Event, decode: Decoder)
    requires Valid(s)
    ensures Valid(Step(s, e, decode))
    ensures s.messages <= Step(s, e, decode).messages
  {
    match e
    case Edit(_) =>
    case Send(hasKey) =>
      if !s.loading { BeginPreservesValid(s, hasKey); }
    case FollowUp(question, hasKey) =>
      if !s.loading { BeginPreservesValid(s.(prompt := question), hasKey); }
    case Resolve(outcome) =>
      if s.loading { CompletePreservesValid(s, outcome, decode); }
  }

  /** Along any run of events the conversation only grows and stays well
      formed: turns alternate user/AI, each AI turn directly follows the
      user turn it answers, and `loading` is set exactly while an answer is
      outstanding. */
  lemma {:induction false} RunPreservesValid(s: State, events: seq<Event>, decode: Decoder)
    requires Valid(s)
    ensures Valid(Run(s, events, decode))
    ensures s.messages <= Run(s, events, decode).messages
    decreases |events|
  {
    if events != [] {
      var s' := Step(s, events[0], decode);
      StepPreservesValid(s, events[0], decode);
      RunPreservesValid(s', events[1..], decode);
    }
  }

  /** Every state the component can reach from its initial state satisfies
      the invariant. */
  lemma ReachableIsValid(events: seq<Event>, decode: Decoder)
    ensures Valid(Run(Initial, events, decode))
  {
    RunPreservesValid(Initial, events, decode);
  }

  /** A follow-up click while idle, followed by the request resolving, is
      the same as typing the question and submitting it. */
  lemma FollowUpIsSubmit(s: State, question: string, hasKey: bool, outcome: Outcome, decode: Decoder)
    requires !s.loading
    ensures Run(s, [FollowUp(question, hasKey), Resolve(outcome)], decode) ==
            Submit(s.(prompt := question), hasKey, outcome, decode)
  {
    var t := Step(s, FollowUp(question, hasKey), decode);
    assert [FollowUp(question, hasKey), Resolve(outcome)][1..] == [Resolve(outcome)];
    assert Run(t, [Resolve(outcome)], decode) == Step(t, Resolve(outcome), decode);
  }
}
