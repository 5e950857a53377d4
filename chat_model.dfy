/** The chat session as a value: the component state of the chat page, the timer callbacks it has
    scheduled, one function per event handler giving the state after the event, the invariant
    every handler keeps, and what each handler promises. `ChatPage.Chat` runs these handlers in place. */
module ChatModel {
  import opened Text
  import opened Responder
  import opened Speech

  /** A chat bubble. The source's id (from `Date.now()`) and timestamp are not modelled. */
  datatype Message = Message(content: string, isUser: bool)

  const WelcomeText: string :=
    "Hello! I'm your AI cooking assistant. I can help you with recipes, cooking tips, meal planning, and answer any culinary questions you might have. What would you like to cook today?"

  /** The assistant message the page starts with. */
  const Welcome: Message := Message(WelcomeText, false)

  /** The prompts offered as buttons while the conversation has not started. */
  const SuggestedPrompts: seq<string> := [
    "Give me a quick dinner recipe",
    "How do I make perfect pasta?",
    "Suggest a healthy breakfast",
    "What can I cook with chicken?"
  ]

  /** The page's state: `messages`, `inputMessage`, `isRecording`, `isLoading`, whether a speech
      recognizer was created, and `pending`, the text captured by each reply timer not yet fired. */
  datatype Session = Session(
    messages: seq<Message>,
    input: string,
    isRecording: bool,
    isLoading: bool,
    hasRecognizer: bool,
    pending: seq<string>)

  /** The contents of the user's messages, in order. */
  function UserTexts(msgs: seq<Message>): seq<string>
  {
    if msgs == [] then []
    else
      var last := msgs[|msgs| - 1];
      UserTexts(msgs[..|msgs| - 1]) + (if last.isUser then [last.content] else [])
  }

  /** The number of assistant messages. */
  function ReplyCount(msgs: seq<Message>): nat
  {
    if msgs == [] then 0
    else ReplyCount(msgs[..|msgs| - 1]) + (if msgs[|msgs| - 1].isUser then 0 else 1)
  }

  lemma {:induction false} AppendMessage(msgs: seq<Message>, m: Message)
    ensures UserTexts(msgs + [m]) == UserTexts(msgs) + (if m.isUser then [m.content] else [])
    ensures ReplyCount(msgs + [m]) == ReplyCount(msgs) + (if m.isUser then 0 else 1)
  {
    assert (msgs + [m])[..|msgs|] == msgs;
  }

  /** What every handler keeps true. */
  predicate Inv(st: Session)
  {
    WellShaped(st) && PendingNonBlank(st) && RepliesAccounted(st)
  }

  /** The welcome message stays first; only a page with a recognizer records; loading means a reply
      timer is scheduled. */
  predicate WellShaped(st: Session)
  {
    && |st.messages| >= 1 && st.messages[0] == Welcome
    && (st.isRecording ==> st.hasRecognizer)
    && (st.isLoading ==> st.pending != [])
  }

  /** Every scheduled reply answers a text that is not blank. */
  predicate PendingNonBlank(st: Session)
  {
    forall k :: 0 <= k < |st.pending| ==> !AllWhitespace(st.pending[k])
  }

  /** Every scheduled reply answers a text the user sent, and every user message is answered or has
      its reply scheduled (the welcome message is the one reply nobody asked for). */
  predicate RepliesAccounted(st: Session)
  {
    && multiset(st.pending) <= multiset(UserTexts(st.messages))
    && |UserTexts(st.messages)| + 1 == ReplyCount(st.messages) + |st.pending|
  }

  /** The suggested prompts are shown while at most one message is on screen. */
  predicate SuggestionsVisible(st: Session)
  {
    |st.messages| <= 1
  }

  /** The page as first rendered: the welcome message, empty input, nothing in progress. */
  function Initial(hasRecognizer: bool): (st: Session)
    ensures Inv(st) && SuggestionsVisible(st)
  {
    AppendMessage([], Welcome);
    assert [] + [Welcome] == [Welcome];
    Session([Welcome], "", false, false, hasRecognizer, [])
  }

  /** `handleSendMessage`: unless the input is blank after trimming, append it as a user message,
      clear the input, start loading and schedule a reply timer that captured the submitted text. */
  function AfterSend(st: Session): Session
  {
    if Trim(st.input) == "" then st
    else
      st.(messages := st.messages + [Message(st.input, true)],
          input := "",
          isLoading := true,
          pending := st.pending + [st.input])
  }

  /** The reply timer `k` fires: append the canned reply to the text it captured and stop loading. */
  function AfterDeliver(st: Session, k: nat, pick: nat): Session
    requires k < |st.pending| && pick < |CannedReplies|
  {
    AnswerPending(st, k, SimulateResponse(st.pending[k], pick))
  }

  /** The state change of a firing reply timer `k` for a given reply text, whatever that text is. */
  function AnswerPending(st: Session, k: nat, reply: string): Session
    requires k < |st.pending|
  {
    st.(messages := st.messages + [Message(reply, false)],
        isLoading := false,
        pending := st.pending[..k] + st.pending[k + 1..])
  }

  /** The recognizer's `onresult`: the joined transcript replaces the input. */
  function AfterSpeechResult(st: Session, results: seq<RecognitionResult>): Session
  {
    match Transcript(results)
    case None => st
    case Some(text) => st.(input := text)
  }

  /** The recognizer's `onerror` and `onend`. */
  function AfterRecognitionStopped(st: Session): Session
  {
    st.(isRecording := false)
  }

  /** `startRecording`. */
  function AfterStartRecording(st: Session): Session
  {
    if st.hasRecognizer then st.(isRecording := true) else st
  }

  /** `stopRecording`. */
  function AfterStopRecording(st: Session): Session
  {
    if st.hasRecognizer then st.(isRecording := false) else st
  }

  /** `handleKeyPress`. */
  function AfterKeyPress(st: Session, key: string, shift: bool): Session
  {
    if key == "Enter" && !shift then AfterSend(st) else st
  }

  /** A click on suggested prompt `p`. */
  function AfterPickSuggestion(st: Session, p: nat): Session
    requires p < |SuggestedPrompts|
  {
    st.(input := SuggestedPrompts[p])
  }

  /** The input field's `onChange`. */
  function AfterEdit(st: Session, text: string): Session
  {
    st.(input := text)
  }

  // ---- The invariant is kept ----

  lemma {:induction false} SendPreservesInv(st: Session)
    requires Inv(st)
    ensures Inv(AfterSend(st))
  {
    if !AllWhitespace(st.input) {
      var r := AfterSend(st);
      AppendMessage(st.messages, Message(st.input, true));
      assert UserTexts(r.messages) == UserTexts(st.messages) + [st.input];
      assert multiset(r.pending) == multiset(st.pending) + multiset{st.input};
    }
  }

  lemma {:induction false} DeliverPreservesInv(st: Session, k: nat, pick: nat)
    requires Inv(st) && k < |st.pending| && pick < |CannedReplies|
    ensures Inv(AfterDeliver(st, k, pick))
  {
    AnswerPendingPreservesInv(st, k, SimulateResponse(st.pending[k], pick));
  }

  /** Answering a scheduled text with any reply keeps the invariant: one more reply, one fewer pending. */
  lemma {:induction false} AnswerPendingPreservesInv(st: Session, k: nat, reply: string)
    requires Inv(st) && k < |st.pending|
    ensures Inv(AnswerPending(st, k, reply))
  {
    var r := AnswerPending(st, k, reply);
    RemoveAt(st.pending, k);
    assert PendingNonBlank(r) by {
      forall j | 0 <= j < |r.pending|
        ensures !AllWhitespace(r.pending[j])
      {
        if j >= k {
          assert r.pending[j] == st.pending[j + 1];
        }
      }
    }
    AnswerPendingKeepsAccount(st, k, reply);
  }

  /** The answered text leaves the pending list and the reply count grows by one. */
  lemma {:induction false} AnswerPendingKeepsAccount(st: Session, k: nat, reply: string)
    requires RepliesAccounted(st) && k < |st.pending|
    ensures RepliesAccounted(AnswerPending(st, k, reply))
  {
    var r := AnswerPending(st, k, reply);
    AppendMessage(st.messages, Message(reply, false));
    RemoveAt(st.pending, k);
    assert multiset(r.pending) <= multiset(st.pending);
  }

  /** Removing entry `k` takes exactly one copy of it out of the multiset and keeps the other entries. */
  lemma {:induction false} RemoveAt(p: seq<string>, k: nat)
    requires k < |p|
    ensures multiset(p[..k] + p[k + 1..]) == multiset(p) - multiset{p[k]}
    ensures forall j :: 0 <= j < k ==> (p[..k] + p[k + 1..])[j] == p[j]
    ensures forall j :: k < j < |p| ==> (p[..k] + p[k + 1..])[j - 1] == p[j]
  {
    assert p == p[..k] + [p[k]] + p[k + 1..];
  }

  // ---- What each handler promises ----

  /** Sending whitespace-only input changes nothing at all. */
  lemma {:induction false} BlankSendChangesNothing(st: Session)
    requires AllWhitespace(st.input)
    ensures AfterSend(st) == st
  {
  }

  /** Sending non-blank input appends exactly one user message holding the untrimmed input, keeps
      the earlier messages, clears the input, starts loading and schedules a reply to that text. */
  lemma {:induction false} SendAppendsUserMessage(st: Session)
    requires !AllWhitespace(st.input)
    ensures var r := AfterSend(st);
            && r.messages == st.messages + [Message(st.input, true)]
            && r.input == "" && r.isLoading
            && r.pending == st.pending + [st.input]
            && r.isRecording == st.isRecording && r.hasRecognizer == st.hasRecognizer
  {
  }

  /** A reply timer appends exactly one assistant message, the responder's answer to the text the
      timer captured; it keeps the earlier messages and the input, ends loading, and is used up. */
  lemma {:induction false} DeliverAppendsReply(st: Session, k: nat, pick: nat)
    requires k < |st.pending| && pick < |CannedReplies|
    ensures var r := AfterDeliver(st, k, pick);
            && r.messages == st.messages + [Message(SimulateResponse(st.pending[k], pick), false)]
            && r.messages[|st.messages|].content in AllReplies
            && !r.isLoading && r.input == st.input && r.isRecording == st.isRecording
            && multiset(r.pending) == multiset(st.pending) - multiset{st.pending[k]}
  {
    RemoveAt(st.pending, k);
    assert AfterDeliver(st, k, pick).messages[|st.messages|].content == SimulateResponse(st.pending[k], pick);
  }

  /** Send followed by its reply: the reply answers the submitted text, although the input was
      cleared before the timer fired. */
  lemma {:induction false} SendThenDeliverAnswersSubmittedText(st: Session, pick: nat)
    requires !AllWhitespace(st.input) && pick < |CannedReplies|
    ensures |AfterSend(st).pending| == |st.pending| + 1
    ensures var r := AfterDeliver(AfterSend(st), |st.pending|, pick);
            && r.messages == st.messages + [Message(st.input, true), Message(SimulateResponse(st.input, pick), false)]
            && r.input == "" && !r.isLoading && r.pending == st.pending
  {
    SendThenAnswer(st, SimulateResponse(st.input, pick));
  }

  /** Send followed by the answer to the text it scheduled, for any reply text. */
  lemma {:induction false} SendThenAnswer(st: Session, reply: string)
    requires !AllWhitespace(st.input)
    ensures |AfterSend(st).pending| == |st.pending| + 1
    ensures AfterSend(st).pending[|st.pending|] == st.input
    ensures var r := AnswerPending(AfterSend(st), |st.pending|, reply);
            && r.messages == st.messages + [Message(st.input, true), Message(reply, false)]
            && r.input == "" && !r.isLoading && r.pending == st.pending
  {
    var s := AfterSend(st);
    var n := |st.pending|;
    SendAppendsUserMessage(st);
    assert s.pending[..n] == st.pending && s.pending[n + 1..] == [];
    assert s.messages + [Message(reply, false)] == st.messages + [Message(st.input, true), Message(reply, false)];
  }

  /** A speech result replaces the input with the joined transcript, whatever the input was; a result
      without alternatives leaves the state as it was. */
  lemma {:induction false} SpeechResultReplacesInput(st: Session, results: seq<RecognitionResult>)
    ensures EveryResultHasAlternative(results) ==>
              AfterSpeechResult(st, results) == st.(input := Join(BestTranscripts(results)))
    ensures !EveryResultHasAlternative(results) ==> AfterSpeechResult(st, results) == st
  {
  }

  /** `startRecording` turns recording on exactly when a recognizer exists, and does nothing otherwise. */
  lemma {:induction false} StartRecordingIff(st: Session)
    requires Inv(st)
    ensures AfterStartRecording(st).isRecording <==> st.hasRecognizer
    ensures !st.hasRecognizer ==> AfterStartRecording(st) == st
  {
  }

  /** `stopRecording`, `onerror` and `onend` all leave recording off. */
  lemma {:induction false} StoppingLeavesRecordingOff(st: Session)
    requires Inv(st)
    ensures !AfterStopRecording(st).isRecording
    ensures !AfterRecognitionStopped(st).isRecording
  {
  }

  /** Enter without Shift is a send; any other key, or Shift+Enter, changes nothing. */
  lemma {:induction false} KeyPressSendsOnPlainEnter(st: Session, key: string, shift: bool)
    ensures key == "Enter" && !shift ==> AfterKeyPress(st, key, shift) == AfterSend(st)
    ensures key != "Enter" || shift ==> AfterKeyPress(st, key, shift) == st
  {
  }

  /** The suggestions are visible exactly until the first message is sent; while they are, nothing
      is loading and no reply is scheduled. */
  lemma {:induction false} SuggestionsOnlyBeforeFirstSend(st: Session)
    requires Inv(st)
    ensures SuggestionsVisible(st) <==> st.messages == [Welcome]
    ensures SuggestionsVisible(st) ==> st.pending == [] && !st.isLoading
    ensures !AllWhitespace(st.input) ==> !SuggestionsVisible(AfterSend(st))
  {
    if SuggestionsVisible(st) {
      assert st.messages == [] + [Welcome];
      AppendMessage([], Welcome);
      assert |multiset(st.pending)| == 0;
    }
  }

  /** A second send while a reply is still scheduled (which the page's disabled input and button
      prevent) would let the first reply end loading while the second is still scheduled. */
  lemma {:induction false} SendWhileLoadingEndsLoadingEarly(st: Session, pick: nat)
    requires Inv(st) && st.isLoading && !AllWhitespace(st.input) && pick < |CannedReplies|
    ensures var r := AfterDeliver(AfterSend(st), 0, pick);
            !r.isLoading && r.pending != []
  {
  }

  /** While sends happen only when nothing is loading, loading is on exactly while one reply is scheduled. */
  predicate LoadingMatchesPending(st: Session)
  {
    |st.pending| == if st.isLoading then 1 else 0
  }

  lemma {:induction false} GuardedSendKeepsLoadingExact(st: Session, k: nat, pick: nat)
    requires LoadingMatchesPending(st) && pick < |CannedReplies|
    ensures !st.isLoading ==> LoadingMatchesPending(AfterSend(st))
    ensures k < |st.pending| ==> LoadingMatchesPending(AfterDeliver(st, k, pick))
  {
  }

  /** The first suggested prompt mentions "recipe" and is not blank. */
  lemma FirstSuggestionMentionsRecipe()
    ensures Mentions(SuggestedPrompts[0], "recipe") && !AllWhitespace(SuggestedPrompts[0])
  {
    var prompt := SuggestedPrompts[0];
    assert prompt[0] == 'G';
    var lower := ToLower(prompt);
    assert prompt[23..29] == "recipe";
    assert lower[23..29] == "recipe";
    IncludesAt(lower, "recipe", 23);
  }

  /** Sending a question that mentions "recipe" from a quiet session gets exactly the recipe reply. */
  lemma {:induction false} RecipeQuestionGetsRecipeReply(st: Session, pick: nat)
    requires st.pending == [] && Mentions(st.input, "recipe") && !AllWhitespace(st.input)
    requires pick < |CannedReplies|
    ensures |AfterSend(st).pending| == 1
    ensures AfterDeliver(AfterSend(st), 0, pick).messages
            == st.messages + [Message(st.input, true), Message(RecipeReply, false)]
  {
    RecipeReplyIff(st.input, pick);
    SendThenDeliverAnswersSubmittedText(st, pick);
  }

  /** Picking the first suggested prompt and sending it gets the recipe reply, whatever the random pick. */
  lemma {:induction false} FirstSuggestionGetsRecipeReply(hasRecognizer: bool, pick: nat)
    requires pick < |CannedReplies|
    ensures |AfterSend(AfterPickSuggestion(Initial(hasRecognizer), 0)).pending| == 1
    ensures var r := AfterDeliver(AfterSend(AfterPickSuggestion(Initial(hasRecognizer), 0)), 0, pick);
            r.messages == [Welcome, Message(SuggestedPrompts[0], true), Message(RecipeReply, false)]
  {
    var picked := Session([Welcome], SuggestedPrompts[0], false, false, hasRecognizer, []);
    assert AfterPickSuggestion(Initial(hasRecognizer), 0) == picked;
    FirstSuggestionMentionsRecipe();
    RecipeQuestionGetsRecipeReply(picked, pick);
  }
}
