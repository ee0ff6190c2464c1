/** `processModels`: one request per selected model, each ending in an
    outcome that finalises that model's card. The requests run one after the
    other here; what the gateway answers each one is an input. */
module Dispatch {
  import opened Wrappers
  import opened Catalog
  import opened Selection
  import opened Responses
  import opened Cards

  /** What a request to the gateway comes to: it threw with a message
      (`fetch` rejected, or reading the stream failed), or a response arrived
      after `duration` milliseconds. */
  datatype Exchange<B> =
    | Unreachable(message: string)
    | Responded(response: HttpResponse<B>, duration: nat)

  /** The gateway, as seen by the application: the exchange for a regular and
      for a streamed request of a model id and a prompt, and the parsing
      oracle for streamed payloads. */
  datatype Network = Network(
    regular: (string, string) -> Exchange<CompletionBody>,
    streamed: (string, string) -> Exchange<seq<string>>,
    parse: string -> Option<Frame>)

  /** One model's request: its outcome, and the contents it streamed before
      finishing, in order. */
  datatype Attempt = Attempt(outcome: Outcome, updates: seq<string>)

  /** The outcome `processModels` records for a request's result: a reply
      with the measured duration, or the error message with `duration: 0`. */
  function OutcomeOf(modelId: string, result: Result<Reply, string>, duration: nat): (o: Outcome)
    ensures o.modelId == modelId
    ensures result.Success? <==> o.Answered?
    ensures result.Success? ==> o == Answered(modelId, result.value.content, duration, result.value.tokensUsed)
    ensures result.Failure? ==> o == Failed(modelId, result.error, 0)
  {
    match result
    case Success(reply) => Answered(modelId, reply.content, duration, reply.tokensUsed)
    case Failure(error) => Failed(modelId, error, 0)
  }

  /** The request for one model: `sendStreamingRequest` when streaming is
      on, `sendRegularRequest` otherwise; a rejected `fetch` fails with its
      message. Only a streamed 2xx response reports contents on the way. */
  function AttemptFor(net: Network, isStreaming: bool, prompt: string, modelId: string): (a: Attempt)
    ensures a.outcome.modelId == modelId
    ensures a.outcome.Failed? ==> a.outcome.duration == 0
    ensures !isStreaming ==> a.updates == []
  {
    if isStreaming then
      match net.streamed(modelId, prompt)
      case Unreachable(message) => Attempt(Failed(modelId, message, 0), [])
      case Responded(response, duration) =>
        Attempt(OutcomeOf(modelId, StreamingResult(net.parse, response), duration),
                StreamingUpdates(net.parse, response))
    else
      match net.regular(modelId, prompt)
      case Unreachable(message) => Attempt(Failed(modelId, message, 0), [])
      case Responded(response, duration) =>
        Attempt(OutcomeOf(modelId, SendRegularRequest(response), duration), [])
  }

  /** The requests for the selected ids, in selection order. */
  function Attempts(net: Network, isStreaming: bool, prompt: string, ids: seq<string>): seq<Attempt> {
    if |ids| == 0 then []
    else Attempts(net, isStreaming, prompt, ids[..|ids| - 1]) + [AttemptFor(net, isStreaming, prompt, ids[|ids| - 1])]
  }

  /** The outcomes `processModels` resolves to, in request order. */
  function Outcomes(attempts: seq<Attempt>): seq<Outcome> {
    if |attempts| == 0 then []
    else Outcomes(attempts[..|attempts| - 1]) + [attempts[|attempts| - 1].outcome]
  }

  /** There is one request per selected id, the `k`-th for the `k`-th id. */
  lemma {:induction false} AttemptsAt(net: Network, isStreaming: bool, prompt: string, ids: seq<string>)
    ensures var r := Attempts(net, isStreaming, prompt, ids);
      |r| == |ids| && forall k :: 0 <= k < |ids| ==> r[k] == AttemptFor(net, isStreaming, prompt, ids[k])
  {
    if |ids| > 0 {
      var init := ids[..|ids| - 1];
      AttemptsAt(net, isStreaming, prompt, init);
      assert forall k :: 0 <= k < |init| ==> init[k] == ids[k];
    }
  }

  /** There is one outcome per request, the `k`-th of the `k`-th. */
  lemma {:induction false} OutcomesAt(attempts: seq<Attempt>)
    ensures var r := Outcomes(attempts);
      |r| == |attempts| && forall k :: 0 <= k < |attempts| ==> r[k] == attempts[k].outcome
  {
    if |attempts| > 0 {
      var init := attempts[..|attempts| - 1];
      OutcomesAt(init);
      assert forall k :: 0 <= k < |init| ==> init[k] == attempts[k];
    }
  }

  /** `processModels` yields exactly one outcome per selected id, for that
      id and in selection order; a failure has `duration: 0` and carries the
      transport or HTTP error message; a failure of one model leaves the
      other outcomes as they would be without it. */
  lemma OutcomePerModel(net: Network, isStreaming: bool, prompt: string, ids: seq<string>, k: nat)
    requires k < |ids|
    ensures var os := Outcomes(Attempts(net, isStreaming, prompt, ids));
      && |os| == |ids|
      && os[k].modelId == ids[k]
      && (os[k].Failed? ==> os[k].duration == 0)
      && os[k] == AttemptFor(net, isStreaming, prompt, ids[k]).outcome
      && (os[k].Failed? && isStreaming ==>
            match net.streamed(ids[k], prompt)
            case Unreachable(message) => os[k].error == message
            case Responded(NotOk(status, _, errorBody), _) => os[k].error == StreamErrorMessage(status, errorBody)
            case Responded(Ok(_), _) => false)
      && (os[k].Failed? && !isStreaming ==>
            match net.regular(ids[k], prompt)
            case Unreachable(message) => os[k].error == message
            case Responded(NotOk(status, statusText, errorBody), _) => os[k].error == RegularErrorMessage(status, statusText, errorBody)
            case Responded(Ok(Failure(thrown)), _) => os[k].error == thrown
            case Responded(Ok(Success(_)), _) => false)
  {
    AttemptsAt(net, isStreaming, prompt, ids);
    OutcomesAt(Attempts(net, isStreaming, prompt, ids));
  }

  /** The streaming updates of one model applied to the grid in order. */
  function ApplyStream(cards: seq<Card>, modelId: string, updates: seq<string>): seq<Card> {
    if |updates| == 0 then cards
    else WithStreamText(ApplyStream(cards, modelId, updates[..|updates| - 1]), modelId, updates[|updates| - 1])
  }

  /** One finished request on the grid: its streamed contents, then its final
      card. */
  function AfterAttempt(cards: seq<Card>, models: seq<Model>, a: Attempt): seq<Card> {
    WithFinal(ApplyStream(cards, a.outcome.modelId, a.updates), models, a.outcome)
  }

  /** The grid after the requests finished, in order. */
  function AfterAttempts(cards: seq<Card>, models: seq<Model>, attempts: seq<Attempt>): seq<Card> {
    if |attempts| == 0 then cards
    else AfterAttempt(AfterAttempts(cards, models, attempts[..|attempts| - 1]), models, attempts[|attempts| - 1])
  }

  /** One more selected id adds its request at the end. */
  lemma AttemptsStep(net: Network, isStreaming: bool, prompt: string, ids: seq<string>, i: nat)
    requires i < |ids|
    ensures Attempts(net, isStreaming, prompt, ids[..i + 1])
         == Attempts(net, isStreaming, prompt, ids[..i]) + [AttemptFor(net, isStreaming, prompt, ids[i])]
  {
    assert ids[..i + 1][..i] == ids[..i];
  }

  /** One more finished request adds its outcome at the end and is applied
      to the grid last. */
  lemma AttemptsFoldStep(cards: seq<Card>, models: seq<Model>, done: seq<Attempt>, a: Attempt)
    ensures Outcomes(done + [a]) == Outcomes(done) + [a.outcome]
    ensures AfterAttempts(cards, models, done + [a]) == AfterAttempt(AfterAttempts(cards, models, done), models, a)
  {
    assert (done + [a])[..|done|] == done;
  }

  /** A model's streaming updates touch only its own card, and keep every
      card's id. */
  lemma {:induction false} ApplyStreamOnlyOwnCard(cards: seq<Card>, k: nat, updates: seq<string>)
    requires Distinct(CardIds(cards)) && k < |cards|
    ensures var r := ApplyStream(cards, cards[k].modelId, updates);
      && CardIds(r) == CardIds(cards)
      && forall j :: 0 <= j < |cards| && j != k ==> r[j] == cards[j]
  {
    if |updates| > 0 {
      var id := cards[k].modelId;
      ApplyStreamOnlyOwnCard(cards, k, updates[..|updates| - 1]);
      var before := ApplyStream(cards, id, updates[..|updates| - 1]);
      assert before[k].modelId == id by {
        assert CardIds(before)[k] == CardIds(cards)[k];
      }
      FirstCardOfDistinct(before, k);
      WithStreamTextOnlyFirst(before, id, updates[|updates| - 1]);
    }
  }

  /** A finished request leaves every other card as it was, keeps every
      card's id, and turns its own card into its final card. */
  lemma AfterAttemptOnlyOwnCard(cards: seq<Card>, models: seq<Model>, a: Attempt, k: nat)
    requires Distinct(CardIds(cards)) && k < |cards| && cards[k].modelId == a.outcome.modelId
    ensures var r := AfterAttempt(cards, models, a);
      && CardIds(r) == CardIds(cards)
      && r[k] == FinalCard(models, a.outcome)
      && forall j :: 0 <= j < |cards| && j != k ==> r[j] == cards[j]
  {
    ApplyStreamOnlyOwnCard(cards, k, a.updates);
    var streamed := ApplyStream(cards, a.outcome.modelId, a.updates);
    assert streamed[k].modelId == a.outcome.modelId by {
      assert CardIds(streamed)[k] == CardIds(cards)[k];
    }
    FirstCardOfDistinct(streamed, k);
    WithFinalOnlyFirst(streamed, models, a.outcome);
  }

  lemma PlaceholderIds(models: seq<Model>, ids: seq<string>)
    ensures CardIds(Placeholders(models, ids)) == ids
  {
    assert forall k :: 0 <= k < |ids| ==> CardIds(Placeholders(models, ids))[k] == ids[k];
  }

  /** One more finished request turns the next loading card into its
      final card and leaves the others as they were. */
  lemma PrefixStep(models: seq<Model>, ids: seq<string>, prev: seq<Attempt>, a: Attempt, before: seq<Card>)
    requires Distinct(ids) && |prev| < |ids| && a.outcome.modelId == ids[|prev|]
    requires CardIds(before) == ids
    requires forall j :: 0 <= j < |ids| ==>
               before[j] == if j < |prev| then FinalCard(models, prev[j].outcome) else Placeholder(models, ids[j])
    ensures var r, done := AfterAttempt(before, models, a), prev + [a];
      && CardIds(r) == ids
      && forall j :: 0 <= j < |ids| ==>
           r[j] == if j < |done| then FinalCard(models, done[j].outcome) else Placeholder(models, ids[j])
  {
    AfterAttemptOnlyOwnCard(before, models, a, |prev|);
  }

  /** After the requests `done`, one per leading selected id, their cards are
      final and the others still loading. */
  lemma {:induction false} AfterPrefix(models: seq<Model>, ids: seq<string>, done: seq<Attempt>)
    requires Distinct(ids) && |done| <= |ids|
    requires forall k :: 0 <= k < |done| ==> done[k].outcome.modelId == ids[k]
    ensures var r := AfterAttempts(Placeholders(models, ids), models, done);
      && CardIds(r) == ids
      && forall j :: 0 <= j < |ids| ==>
           r[j] == if j < |done| then FinalCard(models, done[j].outcome) else Placeholder(models, ids[j])
  {
    var start := Placeholders(models, ids);
    if |done| == 0 {
      PlaceholderIds(models, ids);
    } else {
      var prev, a := done[..|done| - 1], done[|done| - 1];
      assert prev + [a] == done;
      AfterPrefix(models, ids, prev);
      PrefixStep(models, ids, prev, a, AfterAttempts(start, models, prev));
    }
  }

  /** Dispatching to distinct selected ids finalises every loading card with
      its own model's outcome: one model's failure or stream never reaches
      another model's card. */
  lemma DispatchFinalizesEveryCard(models: seq<Model>, net: Network, isStreaming: bool, prompt: string, ids: seq<string>)
    requires Distinct(ids)
    ensures var attempts := Attempts(net, isStreaming, prompt, ids);
      var r := AfterAttempts(Placeholders(models, ids), models, attempts);
      var os := Outcomes(attempts);
      && |r| == |ids| == |os|
      && forall k :: 0 <= k < |ids| ==> os[k].modelId == ids[k] && r[k] == FinalCard(models, os[k])
  {
    var attempts := Attempts(net, isStreaming, prompt, ids);
    AttemptsAt(net, isStreaming, prompt, ids);
    OutcomesAt(attempts);
    AfterPrefix(models, ids, attempts);
  }
}
