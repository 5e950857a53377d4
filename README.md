# Chat page session model

A Dafny model of the chat page of a cooking-assistant web app (`src/pages/Chat.tsx`). The page keeps
a list of chat messages, an input field, a recording flag and a loading flag. A message is sent
with the button or with Enter. A canned responder answers it after a timer. A browser speech
recognizer can fill the input field.

The model has five modules:

- `Text`: the string operations the page uses. `Trim` is `String.prototype.trim` and `Includes` is
  `includes`; each is proved against an independent characterisation (the slice between the
  leading and trailing whitespace; an occurrence at some index). `ToLower` is `toLowerCase`,
  defined character by character on ASCII letters. `ToUpper` is not a page operation. It exists
  only so that `ReplyToUpperCase` can state that shouting a message does not change its reply.
- `Responder`: `simulateAIResponse`, a keyword classifier. "recipe" wins over "ingredient".
  Otherwise one of five generic replies is chosen by an index the caller supplies.
- `Speech`: the transcript the recognizer's `onresult` handler stores. It is the first
  alternative of every result, joined in order.
- `ChatModel`: the page state as a value (`Session`), one function per event handler giving the
  state after that event (`AfterSend`, `AfterDeliver`, ...), the invariant `Inv` that every
  handler keeps, and lemmas stating what each handler promises.
- `ChatPage`: class `Chat`, whose fields are the component's state. Its methods update the fields
  in place. Each method's postcondition says that the new state is the matching `ChatModel`
  function of the old state, and that `Inv` still holds.

The reply timer is modelled as an explicit step. `Send` appends the user message and adds the
submitted text to `pending`. `pending` is the list of scheduled reply timers, each holding the text
its callback captured. `DeliverResponse(k, pick)` fires timer `k`. The reply is computed from the
captured text, not from the input field, which `Send` has already cleared. The delays are random,
so timers may fire in any order, and `k` is any scheduled timer.

No handler checks `isLoading`. While loading, the page disables the input field, the microphone
button and the send button, and that is the only thing that prevents a second send while a reply
is pending. The methods model the handlers, not the `disabled` attributes, so `Send`, `KeyPress`,
`Edit`, `StartRecording` and `StopRecording` have no `!isLoading` precondition, and several replies may be pending
at once. `SendWhileLoadingEndsLoadingEarly` shows what would happen without the guard: the first
reply turns loading off while another reply is still pending. `GuardedSendKeepsLoadingExact`
shows that with the guard, loading is on exactly while one reply is pending.

## Model

| member | source | states |
|---|---|---|
| `Text.TrimStart` | src/pages/Chat.tsx:119 | Leading whitespace is dropped. The result is the suffix of the text that starts at its first non-whitespace character. |
| `Text.TrimEnd` | src/pages/Chat.tsx:119 | Trailing whitespace is dropped. The result is the prefix of the text that ends at its last non-whitespace character. |
| `Text.Trim` | src/pages/Chat.tsx:119 | `trim` gives the empty string exactly when the text is whitespace only. A non-empty result neither starts nor ends with whitespace. It is the slice of the text between a whitespace-only prefix and a whitespace-only suffix. |
| `Text.IncludesIffOccurs` | src/pages/Chat.tsx:107 | `includes` holds exactly when the keyword occurs at some index of the text. |
| `Text.IncludesAt` | src/pages/Chat.tsx:107 | An occurrence of the keyword at a known index is enough for `includes` to hold. |
| `Text.SameIgnoringCase` | src/pages/Chat.tsx:107 | Two texts that differ only in ASCII letter case have the same lower-case form. |
| `Responder.SimulateResponse` | src/pages/Chat.tsx:98-116 | The reply is always one of seven fixed, non-empty strings. |
| `Responder.RepliesDistinct` | src/pages/Chat.tsx:99-113 | The seven replies are pairwise distinct, so a reply identifies the branch that gave it. |
| `Responder.RecipeReplyIff` | src/pages/Chat.tsx:107-109 | The recipe reply is given exactly when the lower-cased text contains "recipe", even if it also contains "ingredient". |
| `Responder.IngredientReplyIff` | src/pages/Chat.tsx:107-113 | The ingredient reply is given exactly when the text contains "ingredient" but not "recipe". |
| `Responder.CannedReplyIff` | src/pages/Chat.tsx:99-115 | A generic reply is given exactly when neither keyword occurs, and it is the one at the picked index. |
| `Responder.ReplyIgnoresCase` | src/pages/Chat.tsx:107-113 | Texts that differ only in ASCII letter case get the same reply. |
| `Responder.ReplyToUpperCase` | src/pages/Chat.tsx:107-113 | Upper-casing the text does not change the reply. |
| `Speech.JoinAppend` | src/pages/Chat.tsx:68 | Joining the parts of two lists gives the two joined texts, concatenated. |
| `Speech.JoinOne` | src/pages/Chat.tsx:68 | A single part joins to itself, so `join('')` adds no separator. With `JoinAppend` and the empty join, this determines the joined text. |
| `Speech.JoinPlacesPart` | src/pages/Chat.tsx:68 | Each part appears unchanged in the joined text, right after the parts before it. |
| `Speech.BestTranscripts` | src/pages/Chat.tsx:65-67 | There is one transcript per result, and it is that result's first alternative. |
| `Speech.Transcript` | src/pages/Chat.tsx:64-70 | A transcript is produced exactly when every result has an alternative. |
| `Speech.TranscriptAppend` | src/pages/Chat.tsx:65-68 | The transcript of more results is the transcript of the earlier results followed by that of the later ones. |
| `Speech.TranscriptPlacesResult` | src/pages/Chat.tsx:65-70 | Each result's best transcript appears in the stored text, right after those of the results before it. |
| `ChatModel.Initial` | src/pages/Chat.tsx:24-34 | The first state is the welcome message alone, satisfies the invariant, and shows the suggestions. |
| `ChatModel.SendPreservesInv` | src/pages/Chat.tsx:118-130 | Sending keeps the invariant: welcome message first, and each user message answered or pending. |
| `ChatModel.DeliverPreservesInv` | src/pages/Chat.tsx:133-141 | A reply timer firing keeps the invariant. |
| `ChatModel.BlankSendChangesNothing` | src/pages/Chat.tsx:119 | Sending whitespace-only input leaves the whole state unchanged: messages, input and loading flag. |
| `ChatModel.SendAppendsUserMessage` | src/pages/Chat.tsx:121-130 | Sending non-blank input appends exactly one user message with the untrimmed input and keeps the earlier messages. It also clears the input, turns loading on and schedules a reply to that text. |
| `ChatModel.DeliverAppendsReply` | src/pages/Chat.tsx:133-141 | A reply timer appends one assistant message holding the responder's answer to the captured text. It keeps the earlier messages and the input, turns loading off and consumes that timer. |
| `ChatModel.SendThenDeliverAnswersSubmittedText` | src/pages/Chat.tsx:118-142 | After a send and its reply, the messages gain the submitted text and the reply to it. The input stays empty and loading is off. |
| `ChatModel.SpeechResultReplacesInput` | src/pages/Chat.tsx:64-71 | A speech result replaces the input with the joined transcript, whatever the input was. A result with no alternative changes nothing. |
| `ChatModel.StartRecordingIff` | src/pages/Chat.tsx:84-89 | `startRecording` turns recording on exactly when a recognizer exists. Without one it changes nothing. |
| `ChatModel.StoppingLeavesRecordingOff` | src/pages/Chat.tsx:73-96 | `stopRecording`, `onerror` and `onend` each leave recording off. |
| `ChatModel.KeyPressSendsOnPlainEnter` | src/pages/Chat.tsx:145-150 | Enter without Shift is exactly a send. Any other key, or Shift+Enter, changes nothing. |
| `ChatModel.SuggestionsOnlyBeforeFirstSend` | src/pages/Chat.tsx:307 | The suggestions are visible exactly while the welcome message is the only message. While they are visible, nothing is loading or pending. A send hides them. |
| `ChatModel.SendWhileLoadingEndsLoadingEarly` | src/pages/Chat.tsx:118-143 | A second send while a reply is pending lets the first reply turn loading off while a reply is still pending. |
| `ChatModel.GuardedSendKeepsLoadingExact` | src/pages/Chat.tsx:336-352 | If sends happen only while not loading, loading is on exactly while one reply is pending. |
| `ChatModel.RecipeQuestionGetsRecipeReply` | src/pages/Chat.tsx:107-109 | Sending a non-blank text that mentions "recipe", with no reply pending, and then delivering its reply appends the text and the recipe reply. |
| `ChatModel.FirstSuggestionMentionsRecipe` | src/pages/Chat.tsx:153 | The first suggested prompt is not blank and mentions "recipe". |
| `ChatModel.FirstSuggestionGetsRecipeReply` | src/pages/Chat.tsx:316 | Picking the first suggestion, sending it and delivering the reply gives the recipe reply, whatever the random pick. |
| `ChatPage.Chat.constructor` | src/pages/Chat.tsx:24-36 | The mounted page is in the initial state and satisfies the invariant. |
| `ChatPage.Chat.Send` | src/pages/Chat.tsx:118-130 | The fields become `AfterSend` of the old state, and the invariant is kept. |
| `ChatPage.Chat.DeliverResponse` | src/pages/Chat.tsx:133-141 | The fields become `AfterDeliver` of the old state for timer `k`, and the invariant is kept. |
| `ChatPage.Chat.OnSpeechResult` | src/pages/Chat.tsx:64-71 | The input becomes the joined transcript, or is unchanged if a result has no alternative. The invariant is kept. |
| `ChatPage.Chat.OnError` | src/pages/Chat.tsx:73-76 | Recording turns off and nothing else changes. |
| `ChatPage.Chat.OnEnd` | src/pages/Chat.tsx:78-80 | Recording turns off and nothing else changes. |
| `ChatPage.Chat.StartRecording` | src/pages/Chat.tsx:84-89 | Recording turns on only when a recognizer exists. |
| `ChatPage.Chat.StopRecording` | src/pages/Chat.tsx:91-96 | Recording turns off when a recognizer exists. Otherwise nothing changes, and recording was already off. |
| `ChatPage.Chat.KeyPress` | src/pages/Chat.tsx:145-150 | Enter without Shift runs `Send`. Any other key changes nothing. |
| `ChatPage.Chat.PickSuggestion` | src/pages/Chat.tsx:316 | The input becomes the chosen prompt. A prompt can only be chosen while the suggestions are visible. |
| `ChatPage.Chat.Edit` | src/pages/Chat.tsx:332 | The input becomes the typed text, and the invariant is kept. |

## Left out

- Message ids and timestamps (`Date.now()`, `new Date()`): these are wall-clock values, so nothing is claimed about their uniqueness.
- `Math.random()` in `simulateAIResponse` is the `pick` parameter, with `0 <= pick < 5`. The 1–3 second delay of the reply timer is not modelled; which pending timer fires next is the `k` parameter of `DeliverResponse`.
- `ToLower`: lower-cases ASCII letters only, where `toLowerCase` also maps non-ASCII letters. For the responder this makes no difference. Its keywords "recipe" and "ingredient" are ASCII, and only two non-ASCII characters lower-case to ASCII letters. U+212A (Kelvin sign) becomes "k", which is in neither keyword. U+0130 becomes "i" followed by U+0307, and that cannot complete either keyword. So `SimulateResponse`, and the lemmas about it that use only `ToLower`, are exact for every input.
- `trim`'s whitespace set (ECMAScript WhiteSpace and LineTerminator) is modelled exactly; nothing about it is left out.
- `ReplyToUpperCase`: holds for the ASCII `ToUpper` only. The page never upper-cases anything, and under the full `toUpperCase` the lemma can fail. For example, "recıpe" (with U+0131, the dotless i) gets no recipe reply, yet its upper-case form "RECIPE" does.
- Creating and configuring the browser speech recognizer (continuous mode, interim results, language) is reduced to the `hasRecognizer` flag. Its `start()` and `stop()` calls are I/O and are left out, and so is the `console.error` logging in `onerror`.
- Interim and final results are not told apart: the handler joins all results regardless, and so does the model. Confidence values of alternatives are not modelled.
- React's scheduling of state updates and re-renders is not modelled. Each handler is one atomic step, and the model relies on React applying a handler's updates before the next discrete event is handled.
- Rendering, styling, theme toggle, logout navigation and scrolling to the newest message are left out. They are presentation or browser I/O, with no state of the session.
