/** The application object: the catalog, the filtered view shown in the
    dropdown, the selection, the loading flag and the response grid, with
    the methods that change them. */
module App {
  import opened Wrappers
  import opened Text
  import opened Catalog
  import opened Selection
  import opened Labels
  import opened Responses
  import opened Cards
  import opened Dispatch

  class OpenRouterApp {
    var apiKey: string
    var models: seq<Model>
    var filteredModels: seq<Model>
    /** The `Set` of selected ids, in insertion order. */
    var selectedModels: seq<string>
    var isLoading: bool
    var isDropdownOpen: bool
    /** The response grid's cards and its column class. */
    var cards: seq<Card>
    var gridClass: string

    /** The selection never holds an id twice. */
    predicate Valid()
      reads this
    {
      Distinct(selectedModels)
    }

    twostate predicate KeepsCatalog()
      reads this
    {
      old(apiKey) == apiKey && old(models) == models && old(filteredModels) == filteredModels
      && old(isDropdownOpen) == isDropdownOpen
    }

    twostate predicate KeepsSelection()
      reads this
    {
      old(selectedModels) == selectedModels
    }

    twostate predicate KeepsGrid()
      reads this
    {
      old(isLoading) == isLoading && old(cards) == cards && old(gridClass) == gridClass
    }

    /** A fresh application: no key, no catalog, nothing selected, the
        dropdown closed and nothing loading. */
    constructor()
      ensures Valid()
      ensures apiKey == "" && models == [] && filteredModels == [] && selectedModels == []
      ensures !isLoading && !isDropdownOpen && cards == [] && gridClass == ""
    {
      apiKey := "";
      models := [];
      filteredModels := [];
      selectedModels := [];
      isLoading := false;
      isDropdownOpen := false;
      cards := [];
      gridClass := "";
    }

    /** `renderModels`: the view becomes the whole catalog, except that an
        empty catalog returns early and leaves the view as it was. */
    method RenderModels()
      modifies this
      ensures |models| == 0 ==> filteredModels == old(filteredModels)
      ensures |models| > 0 ==> filteredModels == models
      ensures apiKey == old(apiKey) && models == old(models) && isDropdownOpen == old(isDropdownOpen)
      ensures KeepsSelection() && KeepsGrid()
    {
      if |models| == 0 {
        return;
      }
      filteredModels := models;
    }

    /** `loadModels` once the catalog request has settled: `fetched` is
        `None` when the request failed and otherwise the body's `data`
        field. A blank key changes nothing; otherwise the trimmed key is
        kept, a fetched catalog replaces the old one (`data || []`) and is
        rendered, and a failed request keeps the old catalog. The selection
        is kept either way, so it may hold ids the new catalog lacks. */
    method LoadModels(apiKeyInput: string, fetched: Option<Option<seq<Model>>>) returns (loaded: bool)
      requires Valid()
      modifies this
      ensures Valid() && KeepsSelection()
      ensures loaded <==> !Blank(apiKeyInput) && fetched.Some?
      ensures Blank(apiKeyInput) ==> KeepsCatalog() && KeepsGrid()
      ensures !Blank(apiKeyInput) ==> apiKey == Trim(apiKeyInput) && !isLoading
      ensures !Blank(apiKeyInput) ==> cards == old(cards) && gridClass == old(gridClass) && isDropdownOpen == old(isDropdownOpen)
      ensures loaded ==> models == (if fetched.value.Some? then fetched.value.value else [])
      ensures loaded ==> filteredModels == if |models| == 0 then old(filteredModels) else models
      ensures !loaded ==> models == old(models) && filteredModels == old(filteredModels)
    {
      var key := Trim(apiKeyInput);
      if key == [] {
        return false;
      }
      apiKey := key;
      isLoading := true;
      if fetched.None? {
        isLoading := false;
        return false;
      }
      models := if fetched.value.Some? then fetched.value.value else [];
      RenderModels();
      isLoading := false;
      loaded := true;
    }

    /** `toggleDropdown(open)`: opening keeps the view; closing clears the
        search box and resets the view to the whole catalog. */
    method ToggleDropdown(open: bool)
      modifies this
      ensures isDropdownOpen == open
      ensures open ==> filteredModels == old(filteredModels)
      ensures !open ==> filteredModels == models && filteredModels == View(models, "")
      ensures apiKey == old(apiKey) && models == old(models)
      ensures KeepsSelection() && KeepsGrid()
    {
      isDropdownOpen := open;
      if !open {
        filteredModels := models;
      }
    }

    /** `filterModels(searchTerm)`: the view is recomputed from the whole
        catalog. */
    method FilterModels(searchTerm: string)
      modifies this
      ensures filteredModels == View(models, searchTerm)
      ensures forall m :: m in filteredModels ==> m in models
      ensures Blank(searchTerm) ==> filteredModels == models
      ensures !Blank(searchTerm) ==> forall m :: m in filteredModels <==> m in models && Matches(m, Lower(searchTerm))
      ensures apiKey == old(apiKey) && models == old(models) && isDropdownOpen == old(isDropdownOpen)
      ensures KeepsSelection() && KeepsGrid()
    {
      filteredModels := View(models, searchTerm);
      forall m | true
        ensures m in filteredModels <==> m in models && (Blank(searchTerm) || Matches(m, Lower(searchTerm)))
      {
        ViewMembers(models, searchTerm, m);
      }
    }

    /** `toggleModel(modelId, selected)`: selecting adds the id unless it is
        already there (keeping its place); deselecting removes exactly that
        id and does nothing when it is absent. */
    method ToggleModel(modelId: string, selected: bool)
      requires Valid()
      modifies this
      ensures Valid() && KeepsCatalog() && KeepsGrid()
      ensures selectedModels == if selected then Add(old(selectedModels), modelId) else Remove(old(selectedModels), modelId)
      ensures forall x :: x in selectedModels <==> if selected then x in old(selectedModels) || x == modelId
                                                   else x in old(selectedModels) && x != modelId
      ensures selected ==> old(selectedModels) <= selectedModels
      ensures (modelId in old(selectedModels)) == selected ==> selectedModels == old(selectedModels)
    {
      ghost var before := selectedModels;
      if selected {
        selectedModels := Add(selectedModels, modelId);
        forall x | true ensures x in selectedModels <==> x in before || x == modelId {
          AddProperties(before, modelId, x);
        }
      } else {
        selectedModels := Remove(selectedModels, modelId);
        RemoveDistinct(before, modelId);
        forall x | true ensures x in selectedModels <==> x in before && x != modelId {
          RemoveMembers(before, modelId, x);
        }
        if modelId !in before {
          RemoveAbsent(before, modelId);
        }
      }
    }

    /** `removeSelectedModel(modelId)`: the chip's remove button deselects. */
    method RemoveSelectedModel(modelId: string)
      requires Valid()
      modifies this
      ensures Valid() && KeepsCatalog() && KeepsGrid()
      ensures selectedModels == Remove(old(selectedModels), modelId)
      ensures forall x :: x in selectedModels <==> x in old(selectedModels) && x != modelId
    {
      ToggleModel(modelId, false);
    }

    /** `selectAllModels`: every id of the current view is added, in view
        order; the prior selection stays in place and ids outside the view
        keep their membership. */
    method SelectAllModels()
      requires Valid()
      modifies this
      ensures Valid() && KeepsCatalog() && KeepsGrid()
      ensures selectedModels == AddAll(old(selectedModels), Ids(filteredModels))
      ensures forall x :: x in selectedModels <==> x in old(selectedModels) || x in Ids(filteredModels)
      ensures old(selectedModels) <= selectedModels
      ensures filteredModels == [] ==> selectedModels == old(selectedModels)
    {
      ghost var before := selectedModels;
      var view := filteredModels;
      var i := 0;
      while i < |view|
        invariant 0 <= i <= |view|
        invariant selectedModels == AddAll(before, Ids(view)[..i])
        invariant KeepsCatalog() && KeepsGrid()
      {
        assert Ids(view)[..i + 1][..i] == Ids(view)[..i];
        selectedModels := Add(selectedModels, view[i].id);
        i := i + 1;
      }
      assert Ids(view)[..i] == Ids(view);
      forall x | true ensures x in selectedModels <==> x in before || x in Ids(view) {
        AddAllProperties(before, Ids(view), x);
      }
      AddAllProperties(before, Ids(view), "");
    }

    /** `clearAllModels`: every id of the current view is removed; ids
        outside the view keep their membership. */
    method ClearAllModels()
      requires Valid()
      modifies this
      ensures Valid() && KeepsCatalog() && KeepsGrid()
      ensures selectedModels == RemoveAll(old(selectedModels), Ids(filteredModels))
      ensures forall x :: x in selectedModels <==> x in old(selectedModels) && x !in Ids(filteredModels)
      ensures filteredModels == [] ==> selectedModels == old(selectedModels)
    {
      ghost var before := selectedModels;
      var view := filteredModels;
      var i := 0;
      while i < |view|
        invariant 0 <= i <= |view|
        invariant selectedModels == RemoveAll(before, Ids(view)[..i])
        invariant KeepsCatalog() && KeepsGrid()
      {
        assert Ids(view)[..i + 1][..i] == Ids(view)[..i];
        selectedModels := Remove(selectedModels, view[i].id);
        i := i + 1;
      }
      assert Ids(view)[..i] == Ids(view);
      forall x | true ensures x in selectedModels <==> x in before && x !in Ids(view) {
        RemoveAllProperties(before, Ids(view), x);
      }
      RemoveAllProperties(before, Ids(view), "");
    }

    /** `renderLoadingResponses`: one loading card per selected id, in
        selection order, and the column class for that many cards. */
    method RenderLoadingResponses()
      modifies this
      ensures cards == Placeholders(models, selectedModels)
      ensures gridClass == GetGridClass(|selectedModels|)
      ensures isLoading == old(isLoading) && KeepsCatalog() && KeepsSelection()
    {
      cards := Placeholders(models, selectedModels);
      gridClass := GetGridClass(|selectedModels|);
    }

    /** `updateResponseCard(modelId, response)`: the cards are searched in
        grid order and the first one for the model is rewritten. */
    method UpdateResponseCard(o: Outcome)
      modifies this
      ensures cards == WithFinal(old(cards), models, o)
      ensures isLoading == old(isLoading) && gridClass == old(gridClass)
      ensures KeepsCatalog() && KeepsSelection()
    {
      var k := 0;
      while k < |cards| && cards[k].modelId != o.modelId
        invariant 0 <= k <= |cards|
        invariant forall j :: 0 <= j < k ==> cards[j].modelId != o.modelId
      {
        k := k + 1;
      }
      if k == |cards| {
        return;
      }
      FirstCardAt(cards, o.modelId, k);
      cards := cards[k := FinalCard(models, o)];
    }

    /** `updateStreamingContent(modelId, content)`: the cards are searched in
        grid order and the text of the first one for the model is replaced. */
    method UpdateStreamingContent(modelId: string, content: string)
      modifies this
      ensures cards == WithStreamText(old(cards), modelId, content)
      ensures isLoading == old(isLoading) && gridClass == old(gridClass)
      ensures KeepsCatalog() && KeepsSelection()
    {
      var k := 0;
      while k < |cards| && cards[k].modelId != modelId
        invariant 0 <= k <= |cards|
        invariant forall j :: 0 <= j < k ==> cards[j].modelId != modelId
      {
        k := k + 1;
      }
      if k == |cards| {
        return;
      }
      FirstCardAt(cards, modelId, k);
      cards := cards[k := cards[k].(content := StreamText(content))];
    }

    /** The request of one model inside `processModels`: the streamed
        contents go to its card as they arrive, then its outcome finalises
        the card. */
    method ProcessModel(prompt: string, isStreaming: bool, net: Network, modelId: string) returns (o: Outcome)
      modifies this
      ensures o == AttemptFor(net, isStreaming, prompt, modelId).outcome
      ensures cards == AfterAttempt(old(cards), models, AttemptFor(net, isStreaming, prompt, modelId))
      ensures isLoading == old(isLoading) && gridClass == old(gridClass)
      ensures KeepsCatalog() && KeepsSelection()
    {
      ghost var start := cards;
      var updates: seq<string> := [];
      if isStreaming {
        match net.streamed(modelId, prompt)
        case Unreachable(message) =>
          o := Failed(modelId, message, 0);
        case Responded(response, duration) =>
          var result;
          result, updates := SendStreamingRequest(net.parse, response);
          o := OutcomeOf(modelId, result, duration);
      } else {
        match net.regular(modelId, prompt)
        case Unreachable(message) =>
          o := Failed(modelId, message, 0);
        case Responded(response, duration) =>
          o := OutcomeOf(modelId, SendRegularRequest(response), duration);
      }
      assert AttemptFor(net, isStreaming, prompt, modelId) == Attempt(o, updates);
      var u := 0;
      while u < |updates|
        invariant 0 <= u <= |updates|
        invariant cards == ApplyStream(start, modelId, updates[..u])
        invariant isLoading == old(isLoading) && gridClass == old(gridClass)
        invariant KeepsCatalog() && KeepsSelection()
      {
        assert updates[..u + 1][..u] == updates[..u];
        UpdateStreamingContent(modelId, updates[u]);
        u := u + 1;
      }
      assert updates[..u] == updates;
      UpdateResponseCard(o);
    }

    /** `processModels(prompt)`: one request per selected id, in selection
        order; the outcomes are collected in that order. */
    method ProcessModels(prompt: string, isStreaming: bool, net: Network) returns (responses: seq<Outcome>)
      modifies this
      ensures responses == Outcomes(Attempts(net, isStreaming, prompt, selectedModels))
      ensures cards == AfterAttempts(old(cards), models, Attempts(net, isStreaming, prompt, selectedModels))
      ensures isLoading == old(isLoading) && gridClass == old(gridClass)
      ensures KeepsCatalog() && KeepsSelection()
    {
      var ids := selectedModels;
      ghost var start := cards;
      responses := [];
      var i := 0;
      assert ids[..0] == [];
      while i < |ids|
        invariant 0 <= i <= |ids|
        invariant responses == Outcomes(Attempts(net, isStreaming, prompt, ids[..i]))
        invariant cards == AfterAttempts(start, models, Attempts(net, isStreaming, prompt, ids[..i]))
        invariant isLoading == old(isLoading) && gridClass == old(gridClass)
        invariant KeepsCatalog() && KeepsSelection()
      {
        ghost var done := Attempts(net, isStreaming, prompt, ids[..i]);
        var o := ProcessModel(prompt, isStreaming, net, ids[i]);
        AttemptsStep(net, isStreaming, prompt, ids, i);
        AttemptsFoldStep(start, models, done, AttemptFor(net, isStreaming, prompt, ids[i]));
        responses := responses + [o];
        i := i + 1;
      }
      assert ids[..i] == ids;
    }

    /** The body of `sendPrompt` once the prompt is accepted: loading is on
        while the grid is laid out with loading cards and every selected
        model is asked; when all have answered each card shows its own
        model's outcome and loading is over. */
    method SubmitPrompt(prompt: string, isStreaming: bool, net: Network) returns (responses: seq<Outcome>)
      requires Valid()
      modifies this
      ensures Valid() && KeepsCatalog() && KeepsSelection()
      ensures !isLoading && gridClass == GetGridClass(|selectedModels|)
      ensures responses == Outcomes(Attempts(net, isStreaming, prompt, selectedModels))
      ensures |cards| == |selectedModels| == |responses|
      ensures forall k :: 0 <= k < |cards| ==> responses[k].modelId == selectedModels[k] && cards[k] == FinalCard(models, responses[k])
    {
      isLoading := true;
      RenderLoadingResponses();
      responses := ProcessModels(prompt, isStreaming, net);
      isLoading := false;
      DispatchFinalizesEveryCard(models, net, isStreaming, prompt, selectedModels);
    }

    /** `sendPrompt`: with a blank prompt or an empty selection nothing
        happens; otherwise the trimmed prompt is submitted. */
    method SendPrompt(promptInput: string, isStreaming: bool, net: Network) returns (sent: bool, responses: seq<Outcome>)
      requires Valid()
      modifies this
      ensures Valid() && KeepsCatalog() && KeepsSelection()
      ensures sent <==> !Blank(promptInput) && |selectedModels| > 0
      ensures !sent ==> KeepsGrid() && responses == []
      ensures sent ==> !isLoading && gridClass == GetGridClass(|selectedModels|)
      ensures sent ==> responses == Outcomes(Attempts(net, isStreaming, Trim(promptInput), selectedModels))
      ensures sent ==> |cards| == |selectedModels| == |responses|
      ensures sent ==> forall k :: 0 <= k < |cards| ==> responses[k].modelId == selectedModels[k] && cards[k] == FinalCard(models, responses[k])
    {
      var prompt := Trim(promptInput);
      if prompt == [] || |selectedModels| == 0 {
        return false, [];
      }
      responses := SubmitPrompt(prompt, isStreaming, net);
      sent := true;
    }
  }
}
