/** The canned assistant of the chat page (`simulateAIResponse`): a keyword classifier over the
    lower-cased user text. The random choice among the generic replies is the `pick` parameter. */
module Responder {
  import opened Text

  const RecipeReply: string :=
    "I'd love to help you find the perfect recipe! What type of cuisine or ingredients are you interested in? I can suggest something delicious based on your preferences."

  const IngredientReply: string :=
    "Great question about ingredients! The key is understanding how different ingredients work together. What specific ingredients are you working with?"

  /** The five generic replies, one of which is chosen when neither keyword occurs. */
  const CannedReplies: seq<string> := [
    "I'd be happy to help you with that recipe! Here are some suggestions based on your request...",
    "That sounds delicious! Let me break down the cooking process step by step for you.",
    "Great choice! Here's what I recommend for the perfect flavor combination...",
    "I can definitely help you with that. Here are some tips to make it even better...",
    "That's an interesting cooking question! Based on culinary science, here's what I suggest..."
  ]

  /** Every reply the responder can give. */
  const AllReplies: seq<string> := [RecipeReply, IngredientReply] + CannedReplies

  /** The keyword test `simulateAIResponse` makes: case-insensitive `includes`. */
  predicate Mentions(text: string, keyword: string)
  {
    Includes(ToLower(text), keyword)
  }

  /** `simulateAIResponse(userMessage)`, with `Math.floor(Math.random() * 5)` supplied as `pick`. */
  function SimulateResponse(userMessage: string, pick: nat): (r: string)
    requires pick < |CannedReplies|
    ensures r in AllReplies && r != ""
  {
    if Mentions(userMessage, "recipe") then RecipeReply
    else if Mentions(userMessage, "ingredient") then IngredientReply
    else CannedReplies[pick]
  }

  /** The seven replies are pairwise distinct, so a reply identifies the branch that produced it. */
  lemma RepliesDistinct()
    ensures forall i, j :: 0 <= i < j < |AllReplies| ==> AllReplies[i] != AllReplies[j]
  {
  }

  /** The recipe reply is given exactly when the text mentions "recipe", whatever else it mentions. */
  lemma {:induction false} RecipeReplyIff(text: string, pick: nat)
    requires pick < |CannedReplies|
    ensures SimulateResponse(text, pick) == RecipeReply <==> Mentions(text, "recipe")
  {
  }

  /** The ingredient reply is given exactly when the text mentions "ingredient" but not "recipe". */
  lemma {:induction false} IngredientReplyIff(text: string, pick: nat)
    requires pick < |CannedReplies|
    ensures SimulateResponse(text, pick) == IngredientReply
            <==> !Mentions(text, "recipe") && Mentions(text, "ingredient")
  {
  }

  /** A generic reply is given exactly when neither keyword occurs, and it is the picked one. */
  lemma {:induction false} CannedReplyIff(text: string, pick: nat)
    requires pick < |CannedReplies|
    ensures SimulateResponse(text, pick) in CannedReplies
            <==> !Mentions(text, "recipe") && !Mentions(text, "ingredient")
    ensures SimulateResponse(text, pick) in CannedReplies ==> SimulateResponse(text, pick) == CannedReplies[pick]
  {
  }

  /** Two texts that differ only in the case of ASCII letters get the same reply. */
  lemma {:induction false} ReplyIgnoresCase(text: string, other: string, pick: nat)
    requires pick < |CannedReplies|
    requires |text| == |other|
    requires forall k :: 0 <= k < |text| ==> LowerChar(text[k]) == LowerChar(other[k])
    ensures SimulateResponse(text, pick) == SimulateResponse(other, pick)
  {
    SameIgnoringCase(text, other);
  }

  /** Shouting the message does not change the reply. */
  lemma {:induction false} ReplyToUpperCase(text: string, pick: nat)
    requires pick < |CannedReplies|
    ensures SimulateResponse(ToUpper(text), pick) == SimulateResponse(text, pick)
  {
    ReplyIgnoresCase(ToUpper(text), text, pick);
  }
}
