/** The chat page component: its state fields, updated in place by its event handlers. Each handler
    leaves the state that the matching `ChatModel` function gives, and keeps `ChatModel.Inv`. */
module ChatPage {
  import opened Text
  import opened Responder
  import opened Speech
  import opened ChatModel

  class Chat {
    var messages: seq<Message>
    var input: string
    var isRecording: bool
    var isLoading: bool
    /** Whether the browser offered a speech recognizer when the page was mounted. */
    const hasRecognizer: bool
    /** The reply timers scheduled and not yet fired, each with the text it captured. */
    var pending: seq<string>

    function State(): Session
      reads this
    {
      Session(messages, input, isRecording, isLoading, hasRecognizer, pending)
    }

    ghost predicate Valid()
      reads this
    {
      Inv(State())
    }

    /** The page as mounted. */
    constructor (hasRecognizer: bool)
      ensures Valid() && State() == Initial(hasRecognizer)
    {
      messages := [Welcome];
      input := "";
      isRecording := false;
      isLoading := false;
      this.hasRecognizer := hasRecognizer;
      pending := [];
      new;
      assert State() == Initial(hasRecognizer);
    }

    method Send()
      requires Valid()
      modifies this
      ensures Valid() && State() == AfterSend(old(State()))
    {
      if Trim(input) == "" {
        return;
      }
      SendPreservesInv(State());
      var submitted := input;
      messages := messages + [Message(submitted, true)];
      input := "";
      isLoading := true;
      pending := pending + [submitted];
    }

    /** Reply timer `k` fires; `pick` stands for the random index of the generic reply. */
    method DeliverResponse(k: nat, pick: nat)
      requires Valid() && k < |pending| && pick < |CannedReplies|
      modifies this
      ensures Valid() && State() == AfterDeliver(old(State()), k, pick)
    {
      DeliverPreservesInv(State(), k, pick);
      var submitted := pending[k];
      messages := messages + [Message(SimulateResponse(submitted, pick), false)];
      isLoading := false;
      pending := pending[..k] + pending[k + 1..];
    }

    method OnSpeechResult(results: seq<RecognitionResult>)
      requires Valid()
      modifies this
      ensures Valid() && State() == AfterSpeechResult(old(State()), results)
    {
      var transcript := Transcript(results);
      if transcript.Some? {
        input := transcript.value;
      }
    }

    method OnError()
      requires Valid()
      modifies this
      ensures Valid() && State() == AfterRecognitionStopped(old(State()))
    {
      isRecording := false;
    }

    method OnEnd()
      requires Valid()
      modifies this
      ensures Valid() && State() == AfterRecognitionStopped(old(State()))
    {
      isRecording := false;
    }

    method StartRecording()
      requires Valid()
      modifies this
      ensures Valid() && State() == AfterStartRecording(old(State()))
    {
      if hasRecognizer {
        isRecording := true;
      }
    }

    method StopRecording()
      requires Valid()
      modifies this
      ensures Valid() && State() == AfterStopRecording(old(State()))
    {
      if hasRecognizer {
        isRecording := false;
      }
    }

    method KeyPress(key: string, shift: bool)
      requires Valid()
      modifies this
      ensures Valid() && State() == AfterKeyPress(old(State()), key, shift)
    {
      if key == "Enter" && !shift {
        Send();
      }
    }

    /** The suggested-prompt buttons exist only while the suggestions are visible. */
    method PickSuggestion(p: nat)
      requires Valid() && p < |SuggestedPrompts| && SuggestionsVisible(State())
      modifies this
      ensures Valid() && State() == AfterPickSuggestion(old(State()), p)
    {
      input := SuggestedPrompts[p];
    }

    /** Typing into the input field. */
    method Edit(text: string)
      requires Valid()
      modifies this
      ensures Valid() && State() == AfterEdit(old(State()), text)
    {
      input := text;
    }
  }
}
