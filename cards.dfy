/** The response grid as a sequence of cards keyed by model id: the loading
    cards `renderLoadingResponses` lays out, the final card
    `updateResponseCard` writes from a model's outcome, and the text
    `updateStreamingContent` shows while a stream is read. */
module Cards {
  import opened Wrappers
  import opened Catalog
  import opened Selection
  import opened Responses

  const GeneratingResponse := "Generating response..."
  const UnknownError := "Unknown error"

  /** The card's class: `loading-response`, `success-response` or
      `error-response`. */
  datatype CardStatus = Loading | Succeeded | Errored

  /** The footer: `Processing...` while loading, then the duration and, on
      success, the token count. */
  datatype Footer = Processing | Finished(durationMs: nat, tokens: Option<nat>)

  /** One response card, found by its `data-model-id`. */
  datatype Card = Card(modelId: string, title: string, subtitle: string, status: CardStatus, content: string, footer: Footer)

  /** What `processModels` records for one model: its reply with the time it
      took, or the error message it failed with. */
  datatype Outcome =
    | Answered(modelId: string, content: string, duration: nat, tokensUsed: nat)
    | Failed(modelId: string, error: string, duration: nat)

  /** The loading card of one selected model. */
  function Placeholder(models: seq<Model>, modelId: string): (c: Card)
    ensures c.modelId == modelId && c.status == Loading && c.footer == Processing
    ensures c.title == DisplayNameFor(models, modelId) && c.subtitle == GetModelProvider(modelId)
    ensures c.content == GeneratingResponse
  {
    Card(modelId, DisplayNameFor(models, modelId), GetModelProvider(modelId), Loading, GeneratingResponse, Processing)
  }

  /** `renderLoadingResponses`: one loading card per selected id, in
      selection order. */
  function Placeholders(models: seq<Model>, ids: seq<string>): (cards: seq<Card>)
    ensures |cards| == |ids|
    ensures forall k :: 0 <= k < |ids| ==> cards[k] == Placeholder(models, ids[k])
  {
    seq(|ids|, k requires 0 <= k < |ids| => Placeholder(models, ids[k]))
  }

  /** The text of a final card: the reply, or `No response generated` for an
      empty one; or `Error: ` followed by the message, `Unknown error` when
      it is empty. */
  function OutcomeText(o: Outcome): (text: string)
    ensures text != ""
    ensures o.Answered? && o.content != "" ==> text == o.content
    ensures o.Answered? && o.content == "" ==> text == NoResponseGenerated
    ensures o.Failed? ==> "Error: " <= text
    ensures o.Failed? ==> text[|"Error: "|..] == if o.error == "" then UnknownError else o.error
  {
    match o
    case Answered(_, content, _, _) => if content == "" then NoResponseGenerated else content
    case Failed(_, error, _) => "Error: " + (if error == "" then UnknownError else error)
  }

  /** The card `updateResponseCard` writes for an outcome. */
  function FinalCard(models: seq<Model>, o: Outcome): (c: Card)
    ensures c.modelId == o.modelId
    ensures c.title == DisplayNameFor(models, o.modelId) && c.subtitle == GetModelProvider(o.modelId)
    ensures c.status == (if o.Answered? then Succeeded else Errored)
    ensures c.content == OutcomeText(o)
    ensures c.footer == Finished(o.duration, if o.Answered? then Some(o.tokensUsed) else None)
  {
    Card(o.modelId, DisplayNameFor(models, o.modelId), GetModelProvider(o.modelId),
         if o.Answered? then Succeeded else Errored, OutcomeText(o),
         Finished(o.duration, if o.Answered? then Some(o.tokensUsed) else None))
  }

  /** The position of the first card for `modelId` at or after `from`, if
      any. */
  function FirstCardFrom(cards: seq<Card>, modelId: string, from: nat): (r: Option<nat>)
    requires from <= |cards|
    ensures r.Some? ==> from <= r.value < |cards| && cards[r.value].modelId == modelId
    ensures r.Some? ==> forall j :: from <= j < r.value ==> cards[j].modelId != modelId
    ensures r.None? ==> forall j :: from <= j < |cards| ==> cards[j].modelId != modelId
    decreases |cards| - from
  {
    if from == |cards| then None
    else if cards[from].modelId == modelId then Some(from)
    else FirstCardFrom(cards, modelId, from + 1)
  }

  /** The position of the first card for `modelId`, if any: what the
      `for ... of` search with `break` in `updateResponseCard` and
      `updateStreamingContent` finds. */
  function FirstCard(cards: seq<Card>, modelId: string): (r: Option<nat>)
  {
    FirstCardFrom(cards, modelId, 0)
  }

  /** The model ids of the cards, in grid order. */
  function CardIds(cards: seq<Card>): (ids: seq<string>)
    ensures |ids| == |cards|
    ensures forall k :: 0 <= k < |cards| ==> ids[k] == cards[k].modelId
  {
    seq(|cards|, k requires 0 <= k < |cards| => cards[k].modelId)
  }

  /** The first card for an id is the one at `k` when no earlier card is
      for that id. */
  lemma FirstCardAt(cards: seq<Card>, modelId: string, k: nat)
    requires k < |cards| && cards[k].modelId == modelId
    requires forall j :: 0 <= j < k ==> cards[j].modelId != modelId
    ensures FirstCard(cards, modelId) == Some(k)
  {
    var r := FirstCard(cards, modelId);
    assert r.Some? ==> r.value <= k;
  }

  /** In a grid whose ids are distinct, the first card for the `k`-th id is
      the `k`-th card. */
  lemma FirstCardOfDistinct(cards: seq<Card>, k: nat)
    requires Distinct(CardIds(cards)) && k < |cards|
    ensures FirstCard(cards, cards[k].modelId) == Some(k)
  {
    var ids := CardIds(cards);
    assert forall j :: 0 <= j < k ==> ids[j] != ids[k];
    FirstCardAt(cards, ids[k], k);
  }

  /** `updateResponseCard(modelId, response)`: the first card for the
      outcome's model becomes its final card. */
  function WithFinal(cards: seq<Card>, models: seq<Model>, o: Outcome): seq<Card> {
    match FirstCard(cards, o.modelId)
    case None => cards
    case Some(k) => cards[k := FinalCard(models, o)]
  }

  /** The text `updateStreamingContent` shows: the content so far, or
      `Generating response...` while it is empty. */
  function StreamText(content: string): (text: string)
    ensures text != ""
    ensures content != "" ==> text == content
    ensures content == "" ==> text == GeneratingResponse
  {
    if content == "" then GeneratingResponse else content
  }

  /** `updateStreamingContent(modelId, content)`: the text of the first card
      for the model is replaced. */
  function WithStreamText(cards: seq<Card>, modelId: string, content: string): seq<Card> {
    match FirstCard(cards, modelId)
    case None => cards
    case Some(k) => cards[k := cards[k].(content := StreamText(content))]
  }

  /** The final update rewrites exactly the first card for the outcome's
      model, keeps every other card and every card's id, and is a no-op when
      no card is for that model. */
  lemma WithFinalOnlyFirst(cards: seq<Card>, models: seq<Model>, o: Outcome)
    ensures var r := WithFinal(cards, models, o);
      && |r| == |cards| && CardIds(r) == CardIds(cards)
      && (FirstCard(cards, o.modelId).None? ==> r == cards)
      && (FirstCard(cards, o.modelId).Some? ==>
            var k := FirstCard(cards, o.modelId).value;
            r[k] == FinalCard(models, o) && forall j :: 0 <= j < |cards| && j != k ==> r[j] == cards[j])
  {
  }

  /** A streaming update changes only the text of the first card for the
      model, keeps every other card and every card's id, and is a no-op when
      no card is for that model. */
  lemma WithStreamTextOnlyFirst(cards: seq<Card>, modelId: string, content: string)
    ensures var r := WithStreamText(cards, modelId, content);
      && |r| == |cards| && CardIds(r) == CardIds(cards)
      && (FirstCard(cards, modelId).None? ==> r == cards)
      && (FirstCard(cards, modelId).Some? ==>
            var k := FirstCard(cards, modelId).value;
            && r[k] == cards[k].(content := StreamText(content))
            && forall j :: 0 <= j < |cards| && j != k ==> r[j] == cards[j])
  {
  }

  /** A failure card reads `Error: ` and the message, or `Error: Unknown
      error` for an empty message, and shows no token count. */
  lemma FailureCard(models: seq<Model>, modelId: string, error: string, duration: nat)
    ensures var c := FinalCard(models, Failed(modelId, error, duration));
      && c.status == Errored
      && c.content == "Error: " + (if error == "" then UnknownError else error)
      && c.footer.tokens.None?
  {
  }
}
