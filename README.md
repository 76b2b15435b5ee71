# ChatBox conversation controller, modelled in Dafny

This project models the only logic in the AI-CHAT single-page client: the
`ChatApp` component in `build-google-gemini/src/components/ChatBox.jsx`. The
component holds four pieces of state: the draft `prompt`, the `loading` flag,
the last `response` object and the append-only list of `messages`. Its
`handleChat` handler sends the prompt to the generative-language endpoint. It
then turns the raw reply text into an answer and an optional follow-up
question, and appends one user turn and one AI turn to the conversation.

The model has four modules:

- `JsBuiltins` (`js_builtins.dfy`) covers the JavaScript behaviour the
  component relies on:
  - `null`/`undefined` values, and the truthiness of strings;
  - `String.prototype.trim`;
  - the character scans behind the regular-expression match;
  - the decimal rendering of the HTTP status inside the error message.
- `Reply` (`reply.dfy`) covers lines 54-68:
  - the "No response received." placeholder;
  - the match of `/\{[\s\S]*\}/`, specified by leftmost-then-longest regex
    semantics;
  - `Structure`, the lenient answer/follow-up extraction. `JSON.parse` is
    a `Decoder` parameter: any function from the matched text to either a
    `SyntaxError` or an object with optional `answer` and `followup`.
- `Conversation` (`conversation.dfy`) holds the state machine as values:
  - `Begin` is lines 19-28 and `Complete` is lines 51-84; `Submit` is the
    two together.
  - `Step`/`Run` cover runs of UI events: typing, sending, clicking a
    follow-up, and the request resolving.
  - `Valid` is the conversation invariant. User and AI turns alternate, and
    every AI turn has a non-empty answer. `loading` holds exactly when a user
    turn is still waiting for its answer.
- `ChatBox` (`chat_box.dfy`) holds the class `ChatApp`. Its fields are the
  four state variables. Its methods update them step by step, and each
  method's contract ties the new state to the matching `Conversation`
  transition.

Inputs the component gets from outside are parameters:

- The API key is the boolean `hasKey`.
- The network call is an `Outcome`, one of:
  - `Received(candidate)`: an ok status and a non-null JSON body, where
    `candidate` is the text at
    `candidates[0].content.parts[0].text` if that path exists;
  - `BadStatus(status)`: a status that is not ok;
  - `Thrown(message)`: `fetch` or `res.json()` threw, or line 54 threw.
    Line 54 throws when the body is JSON `null`: the optional chain starts
    after `candidates`, so reading `candidates` of `null` is a TypeError.
    The outer `catch` turns that into an error turn, like any other throw.
- `JSON.parse` is the `Decoder`. The span it is given always starts with
  `{`, so it either throws a SyntaxError or returns an object.

Three behaviours of the code worth knowing:

- The draft prompt is not cleared when a submission is accepted. It is
  cleared only in the `finally` block, after the reply or error turn has been
  appended (lines 81-84).
- A missing API key sets `response` to the configuration error. It leaves
  `loading` and `prompt` as they were, because `handleChat` returns before its
  `try` block.
- A follow-up click while a request is in flight still overwrites `prompt`,
  because the follow-up buttons are not disabled. The send click it schedules
  does nothing, because the send button is disabled, and the `finally` of the
  running request then clears the prompt again.

## Model

| member | source | states |
|---|---|---|
| `JsBuiltins.TrimSpec` | build-google-gemini/src/components/ChatBox.jsx:19 | `trim` leaves a contiguous piece of the prompt. That piece neither starts nor ends with whitespace, and everything removed around it is whitespace. |
| `JsBuiltins.TrimEmptyIffAllWhitespace` | build-google-gemini/src/components/ChatBox.jsx:19 | `!prompt.trim()` holds exactly when every character of the prompt is whitespace. |
| `JsBuiltins.TrimStart` | build-google-gemini/src/components/ChatBox.jsx:19 | The leading-whitespace half of `trim`: never longer than its input. `TrimStartSpec` states the rest. |
| `JsBuiltins.TrimStartSpec` | build-google-gemini/src/components/ChatBox.jsx:19 | The leading-whitespace half of `trim`: the result is a suffix of the input, everything dropped is whitespace, and the result does not start with whitespace. |
| `JsBuiltins.TrimEnd` | build-google-gemini/src/components/ChatBox.jsx:19 | The trailing-whitespace half of `trim`: never longer than its input. `TrimEndSpec` states the rest. |
| `JsBuiltins.TrimEndSpec` | build-google-gemini/src/components/ChatBox.jsx:19 | The trailing-whitespace half of `trim`: the result is a prefix of the input, everything dropped is whitespace, and the result does not end with whitespace. |
| `JsBuiltins.Trim` | build-google-gemini/src/components/ChatBox.jsx:19 | `String.prototype.trim`. It is specified by `TrimSpec`: a contiguous piece with only whitespace around it and none at its ends. `TrimEmptyIffAllWhitespace` shows it is empty exactly when the string is all whitespace. |
| `JsBuiltins.Truthy` | build-google-gemini/src/components/ChatBox.jsx:54-62 | JavaScript truthiness of a string that may be `undefined`/`null`: present and non-empty. `ReplyText`, `FalsyAnswerGivesRawText` and `TruthyAnswerKept` state its effect at lines 54 and 61-62. |
| `JsBuiltins.FirstIndexOf` | build-google-gemini/src/components/ChatBox.jsx:58 | The position found holds the character and no earlier position does. If nothing is found, the character does not occur. |
| `JsBuiltins.LastIndexOf` | build-google-gemini/src/components/ChatBox.jsx:58 | The position found holds the character and no later position does. If nothing is found, the character does not occur. |
| `JsBuiltins.DecimalString` | build-google-gemini/src/components/ChatBox.jsx:51 | `${res.status}` renders the status as a non-empty string of decimal digits with no leading zero. |
| `JsBuiltins.DecimalRoundTrip` | build-google-gemini/src/components/ChatBox.jsx:51 | Reading the rendered digits back gives the original status. |
| `Reply.ReplyText` | build-google-gemini/src/components/ChatBox.jsx:54 | The text used is never empty. A missing or empty reply text becomes "No response received."; any other text is kept. |
| `Reply.IsRegexMatch` | build-google-gemini/src/components/ChatBox.jsx:58 | The independent statement of what `match` reports for `/\{[\s\S]*\}/`: a match that starts leftmost and, at that start, is longest. `RegexMatchUnique` shows it is unique. `FindMatchIsRegexMatch` and `ExtractBracedIsRegexMatch` show the computed span is this match. |
| `Reply.FindMatch` | build-google-gemini/src/components/ChatBox.jsx:58 | Any span found is a place where the pattern matches: it starts with `{`, ends with `}` and lies inside the text. |
| `Reply.FindMatchIsRegexMatch` | build-google-gemini/src/components/ChatBox.jsx:58 | The span found is the match that `text.match(/\{[\s\S]*\}/)` reports: the leftmost start, and at that start the longest match. There is no span exactly when the pattern matches nowhere. |
| `Reply.ExtractBraced` | build-google-gemini/src/components/ChatBox.jsx:58 | `jsonMatch[0]` has at least two characters, no more than the text, and runs from a `{` to a `}`. |
| `Reply.ExtractBracedIsRegexMatch` | build-google-gemini/src/components/ChatBox.jsx:58 | `jsonMatch[0]` is a contiguous substring of the reply and is exactly the regex match. `jsonMatch` is null exactly when the pattern matches nowhere. |
| `Reply.RegexMatchUnique` | build-google-gemini/src/components/ChatBox.jsx:58 | The leftmost-longest match is unique, so the regex semantics determine the extracted span. |
| `Reply.MatchIsFirstOpenToLastClose` | build-google-gemini/src/components/ChatBox.jsx:58 | A match exists if and only if some `}` comes after the first `{`. It then starts at the first `{` and ends at the last `}`. |
| `Reply.FirstOpenToLastCloseIsRegexMatch` | build-google-gemini/src/components/ChatBox.jsx:58 | A span from a `{` with no `{` before it to a `}` with no `}` after it is the match the regex reports. |
| `Reply.ObjectInProseIsMatched` | build-google-gemini/src/components/ChatBox.jsx:58 | If the reply is brace-free prose, then an object text, then text with no `}` (such as a closing code fence), the match is exactly that object text, whatever the object holds inside. |
| `Reply.Structure` | build-google-gemini/src/components/ChatBox.jsx:56-68 | A non-empty reply text always gives a non-empty answer. A follow-up, when present, is never empty, because falsy follow-ups become `null`. |
| `Reply.RawAnswer` | build-google-gemini/src/components/ChatBox.jsx:61-67 | The fallback `{ answer: text, followup: null }`. `NoMatchGivesRawText`, `SyntaxErrorGivesRawText` and `FalsyAnswerGivesRawText` state when it is used. |
| `Reply.NoMatchGivesRawText` | build-google-gemini/src/components/ChatBox.jsx:58-65 | If no `}` follows any `{`, the answer is the whole raw text and the follow-up is `null`, whatever JSON.parse would do. |
| `Reply.SyntaxErrorGivesRawText` | build-google-gemini/src/components/ChatBox.jsx:66-68 | If JSON.parse rejects the matched span, the answer is the raw text and the follow-up is `null`. |
| `Reply.FalsyAnswerGivesRawText` | build-google-gemini/src/components/ChatBox.jsx:61-62 | If the decoded object's `answer` is missing or empty, the answer is the raw text and the follow-up is `null`, even when the object has a `followup`. |
| `Reply.TruthyAnswerKept` | build-google-gemini/src/components/ChatBox.jsx:60-62 | A truthy decoded `answer` is kept unchanged. The decoded `followup` is kept when truthy and becomes `null` otherwise. |
| `Reply.FollowupComesFromDecodedObject` | build-google-gemini/src/components/ChatBox.jsx:56-68 | A follow-up appears only when the match decoded to an object with a truthy answer. The follow-up and the answer are then that object's own. |
| `Reply.AnswerNeverEmpty` | build-google-gemini/src/components/ChatBox.jsx:54-68 | Whatever text the endpoint returned and whatever JSON.parse does, the displayed answer is non-empty. |
| `Reply.PlainSentenceExample` | build-google-gemini/src/components/ChatBox.jsx:63-65 | "The answer is 42." has no match, so it becomes the answer as it is, with a `null` follow-up. |
| `Reply.EmbeddedObjectExample` | build-google-gemini/src/components/ChatBox.jsx:58-62 | In a reply that wraps `{"answer":"42","followup":"Why?"}` in a `json` code fence after "Sure:", the object is found. If it decodes as usual, the result is answer "42" with follow-up "Why?". |
| `Reply.MissingAnswerExample` | build-google-gemini/src/components/ChatBox.jsx:61 | `{"foo":"bar"}` decodes to an object without `answer`, so the whole raw text is the answer. |
| `Conversation.ErrorMessage` | build-google-gemini/src/components/ChatBox.jsx:76 | The error stored in `response` after a failed request is never empty. A non-empty thrown message is stored as it is, and an empty one becomes "An error occurred.". |
| `Conversation.BadStatusMessage` | build-google-gemini/src/components/ChatBox.jsx:51 | A non-ok status is reported as `API error: <status>`, and the status can be read back from the message. |
| `Conversation.ReplyTurn` | build-google-gemini/src/components/ChatBox.jsx:71-80 | The appended AI turn has a non-empty content and at most a non-empty follow-up. It is flagged `isError` exactly when the request failed, and then it holds the fixed apology text and no follow-up. |
| `Conversation.OutcomeResponse` | build-google-gemini/src/components/ChatBox.jsx:70-76 | `response.success` is set exactly when a reply was received. On success it carries data and no error. On failure it carries no data and a non-empty error. |
| `Conversation.UserTurn` | build-google-gemini/src/components/ChatBox.jsx:26 | The user turn holds the untrimmed prompt, with no follow-up and no error flag. `BeginAppendsUserTurn` states it is what an accepted submission appends. |
| `Conversation.Begin` | build-google-gemini/src/components/ChatBox.jsx:19-28 | The first half of `handleChat`. `BlankPromptIsNoOp`, `WhitespacePromptIsNoOp`, `MissingKeyOnlySetsResponse` and `BeginAppendsUserTurn` state its three branches. `BeginPreservesValid` shows it keeps the invariant. |
| `Conversation.Complete` | build-google-gemini/src/components/ChatBox.jsx:51-84 | The second half of `handleChat`, once the request has an outcome. `CompleteAppendsAiTurn` states its effect and `CompletePreservesValid` shows it keeps the invariant. |
| `Conversation.Submit` | build-google-gemini/src/components/ChatBox.jsx:18-85 | One whole call of `handleChat`. `SubmitAppendsPair` and `AcceptedSubmitMessages` state its effect on the conversation. |
| `Conversation.Valid` | build-google-gemini/src/components/ChatBox.jsx:18-84 | The conversation invariant: user turns at even and AI turns at odd positions, each well formed, and `loading` exactly when the number of turns is odd, with `response` null while loading. `ReachableIsValid` shows every reachable state satisfies it. |
| `Conversation.Step` | build-google-gemini/src/components/ChatBox.jsx:87-99 | One UI event: typing, sending, clicking a follow-up, or the request resolving, with typing and sending ignored while loading. `StepPreservesValid` and `FollowUpIsSubmit` state its effect. |
| `Conversation.Run` | build-google-gemini/src/components/ChatBox.jsx:87-99 | A sequence of UI events applied in order. `RunPreservesValid` and `ReachableIsValid` state what every run keeps. |
| `Conversation.BlankPromptIsNoOp` | build-google-gemini/src/components/ChatBox.jsx:19 | Submitting a blank prompt leaves `messages`, `loading`, `prompt` and `response` unchanged. |
| `Conversation.WhitespacePromptIsNoOp` | build-google-gemini/src/components/ChatBox.jsx:19 | Submitting a whitespace-only prompt leaves the whole state unchanged. |
| `Conversation.MissingKeyOnlySetsResponse` | build-google-gemini/src/components/ChatBox.jsx:21-24 | Without an API key, `response` becomes `{success:false, data:null, error:"API key is missing."}`. No turn is appended, and `loading` and `prompt` keep their values. |
| `Conversation.BeginAppendsUserTurn` | build-google-gemini/src/components/ChatBox.jsx:26-28 | An accepted submission appends exactly one user turn holding the untrimmed prompt, with earlier turns unchanged. It sets `loading` and clears `response`. |
| `Conversation.CompleteAppendsAiTurn` | build-google-gemini/src/components/ChatBox.jsx:51-84 | Completion appends exactly one AI turn. On success it holds the structured answer and follow-up, and `response` carries that reply. On failure it holds the fixed error text with `isError`, and `response` is `{success:false, data:null, error}` with the `ErrorMessage` text. Either way, `loading` ends false and `prompt` ends "". |
| `Conversation.AcceptedSubmitMessages` | build-google-gemini/src/components/ChatBox.jsx:26-84 | After an accepted submission, the turns are the old ones, then the user turn, then its AI turn. The component ends idle with an empty prompt. |
| `Conversation.SubmitAppendsPair` | build-google-gemini/src/components/ChatBox.jsx:18-85 | An accepted `handleChat` appends exactly two turns, the user turn and then its AI turn, and ends idle with the prompt cleared. A rejected one appends nothing. Earlier turns are never modified. |
| `Conversation.InitialIsValid` | build-google-gemini/src/components/ChatBox.jsx:4-7 | The initial state satisfies the conversation invariant. |
| `Conversation.BeginPreservesValid` | build-google-gemini/src/components/ChatBox.jsx:19-28 | Lines 19-28 keep the invariant: the user turn lands at an even position and `loading` is set with an odd number of turns. |
| `Conversation.CompletePreservesValid` | build-google-gemini/src/components/ChatBox.jsx:51-84 | Lines 51-84 keep the invariant: the AI turn lands at an odd position, directly after the user turn it answers. |
| `Conversation.StepPreservesValid` | build-google-gemini/src/components/ChatBox.jsx:187-197 | Each UI event keeps the invariant and never removes or changes a turn. This holds with typing and sending disabled while `loading`. |
| `Conversation.RunPreservesValid` | build-google-gemini/src/components/ChatBox.jsx:18-99 | Along any run of events, the conversation only grows and stays well formed. |
| `Conversation.ReachableIsValid` | build-google-gemini/src/components/ChatBox.jsx:4-7 | Every state reachable from the initial state satisfies the invariant: turns alternate user/AI, and `loading` holds exactly while an answer is outstanding. |
| `Conversation.FollowUpIsSubmit` | build-google-gemini/src/components/ChatBox.jsx:94-99 | While idle, clicking a follow-up and then resolving its request equals setting the prompt to the question and submitting it. |
| `ChatBox.ChatApp.constructor` | build-google-gemini/src/components/ChatBox.jsx:4-7 | The component starts with an empty prompt, not loading, no response and no messages, which satisfies the invariant. |
| `ChatBox.ChatApp.SetPrompt` | build-google-gemini/src/components/ChatBox.jsx:190 | Only `prompt` changes, and the invariant is kept. |
| `ChatBox.ChatApp.Begin` | build-google-gemini/src/components/ChatBox.jsx:19-28 | Updates the fields as `Conversation.Begin` prescribes and keeps the invariant. It reports acceptance exactly when the prompt is not blank and the key is present, which is also exactly when `loading` is now set. |
| `ChatBox.ChatApp.Complete` | build-google-gemini/src/components/ChatBox.jsx:51-84 | Updates the fields as `Conversation.Complete` prescribes and keeps the invariant. |
| `ChatBox.ChatApp.HandleChat` | build-google-gemini/src/components/ChatBox.jsx:18-85 | Runs Begin and, if the request was sent, Complete; the result is `Conversation.Submit` of the old state. |
| `ChatBox.ChatApp.HandleFollowUp` | build-google-gemini/src/components/ChatBox.jsx:94-99 | Sets the prompt to the question. While loading nothing else happens; otherwise the result is a full submission of the question. |

## Left out

- The network call is an input outcome: the URL with its key, the request body, the `structuredPrompt` text, `fetch` and `res.json()` (lines 31-53). A request that never answers, leaving `loading` set for good, is covered as a run with no `Resolve` event.
- `JSON.parse` internals are a `Decoder` parameter. A decoded `answer` or `followup` that is not a string is not modelled. In the source such a value can make rendering throw: an object passed as a React child at lines 149 and 155, or a clicked non-string follow-up that line 95 puts into `prompt`, where `prompt.trim()` at line 197 throws.
- A reply `text` at line 54 that is truthy but not a string is not modelled. In the source, `text.match` would then throw and the inner `catch` would use the raw value.
- `import.meta.env.VITE_GEMINI_API_KEY` is the boolean `hasKey`.
- React's batching of state updates and the re-renders between setter calls are not modelled. Each handler's updates are applied in order, as one transition.
- The 50 ms `setTimeout` in `handleFollowUp` is treated as immediate. Typing, or a second follow-up click, inside those 50 ms is not modelled: the source then submits the later text, while the model has already submitted the first question. (A request that resolves inside the window ends as in the model: the prompt is cleared and the delayed click hits a disabled button, line 197.)
- `handleKeyDown` is modelled as the `Send` event. The Shift+Enter newline it lets through is just an `Edit`.
- `scrollToBottom`, `useRef` and `useEffect` (lines 8-16), the JSX markup, styling, icons and empty-state rendering (lines 101-238), and `App.jsx` are presentation only.
