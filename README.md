# OpenRouter model comparison: the application core

This project models the core of `OpenRouterApp` in Dafny, with the browser
abstracted away. `OpenRouterApp` is the single class of a browser page that
sends one prompt to several language models through the OpenRouter gateway
and shows their answers side by side. The model covers:

- **Model selection** (module `Selection`, methods of `App.OpenRouterApp`).
  - The fetched catalog, the filtered view shown in the dropdown, and the
    selection.
  - The selection is a JavaScript `Set`, modelled as a duplicate-free
    `seq<string>` in insertion order.
  - The operations that change them: `loadModels`, `renderModels`,
    `toggleDropdown`, `filterModels`, `toggleModel`, `removeSelectedModel`,
    `selectAllModels` and `clearAllModels`.
- **Derived texts and flags** (modules `Catalog` and `Labels`).
  - The provider label of a model id.
  - The selected-count label and the send button's enablement.
  - The response grid's column class.
  - The selected-model chips, which truncate names to 25 characters.
- **Response decoding** (module `Responses`).
  - The content and token fallbacks of a regular completion.
  - The two HTTP error messages.
  - The server-sent-events read loop of a streamed completion, over the
    decoded chunks. Each chunk is split on `\n` by itself; `[DONE]` and
    undecodable payloads are skipped.
- **Dispatch and the response grid** (modules `Cards` and `Dispatch`, and
  `ProcessModel`, `ProcessModels` and `SendPrompt` in the class).
  - One loading card per selected model.
  - One request per model, each ending in an outcome.
  - The first card with that model's id gets its streamed text and then its
    final card.

The JavaScript string operations the core relies on (`trim`, ASCII
`toLowerCase`, `includes`, `split`, decimal rendering) are in module `Text`.
`Option` and `Result` are in module `Wrappers`.

The core's inputs are parameters:

- what the gateway answers, including a 2xx completion body that cannot be
  read, with the message reading it threw;
- how long each request took;
- what `JSON.parse` makes of a streamed payload.

`Dispatch.Network` bundles the answers to a regular and to a streamed
request, as functions of model id and prompt, together with the payload
parser (`parse`, an oracle returning `None` when `JSON.parse` or the
`choices[0]` access throws). `LoadModels` receives the catalog fetch's
outcome.

Behaviours of `script.js` worth knowing, which the model follows:

- `[DONE]` does not end the stream. The loop `continue`s past it and decodes
  any later lines (`Responses.DoneIsSkipped`).
- The search term is tested for blankness after trimming. The filter then
  uses the untrimmed, lowercased term (`Catalog.ViewTermNotTrimmed`).
- A streamed frame replaces the token count only when its `total_tokens` is
  non-zero (truthy). It is not enough for the field to be present.
- A regular completion whose first choice has neither a truthy
  `message.content` nor a truthy `text` gives `No content in response`, not
  `No response generated`.
- A `data: ` line split across two chunks is lost, because there is no
  buffer between chunks (`Responses.SplitLineIsLost`).

## Model

| member | source | states |
|---|---|---|
| App.OpenRouterApp.constructor | script.js:3-7 | a fresh application has no key and no catalog; the selection is empty, nothing is loading, and the dropdown is closed with an empty view (the view fields come from script.js:36-37) |
| App.OpenRouterApp.LoadModels | script.js:73-119 | a blank key changes nothing. Otherwise: the trimmed key is stored; a fetched catalog (`data \|\| []`) replaces the old one and is rendered; a failed fetch keeps the old catalog; loading ends either way; the selection is kept. `loaded` holds iff the key is non-blank and the fetch succeeded |
| App.OpenRouterApp.RenderModels | script.js:121-129 | a non-empty catalog becomes the view; an empty catalog returns early and leaves the view stale |
| App.OpenRouterApp.ToggleDropdown | script.js:158-174 | the open flag is set; opening keeps the view; closing resets the view to the whole catalog, which is the view of the empty term |
| App.OpenRouterApp.FilterModels | script.js:176-189 | the view is recomputed from the catalog and contains only catalog records. A blank term yields the whole catalog; otherwise a record is in the view iff it is in the catalog and matches the lowercased term |
| Catalog.FilterMembers | script.js:180-186 | a record is in the filtered list iff it is in the catalog and the test keeps it |
| Catalog.FilterAppend | script.js:180-186 | filtering a concatenation is the concatenation of the two filtered lists: catalog order is kept |
| Catalog.FilterBounds | script.js:180-186 | filtering never lengthens the list, and a test that keeps every record gives the catalog itself |
| Catalog.ViewMembers | script.js:176-187 | a blank term shows the whole catalog; otherwise membership is catalog membership plus a match of the lowercased term on the lowercased name-or-id, provider or id |
| Catalog.ViewIgnoresTermCase | script.js:180 | a term and its lowercase give the same view |
| Catalog.ViewTermNotTrimmed | script.js:177-186 | the term is not trimmed: a record in the view of `" " + term` has a space in its name or id, because no provider label has one |
| Catalog.ProviderHasNoSpace | script.js:191-199 | no provider label contains a space |
| Catalog.FindModel | script.js:231 | `find` gives `None` iff no record has the id, and otherwise the first record with that id |
| Catalog.DisplayNameFor | script.js:231-232 | an id absent from the catalog is shown as itself |
| Catalog.DisplayNameForFound | script.js:231-232 | an id the catalog lists is shown with the display name of its first record: the record's non-empty name, or else the id |
| Catalog.ProviderPriority | script.js:191-199 | the label is that of the first keyword, in the order gpt, claude, gemini, llama, mistral, cohere, that the id contains; `Various` when the id contains none |
| Catalog.ProviderPrefersGpt | script.js:192-193 | every id containing both `gpt` and `claude` is labelled OpenAI |
| Catalog.ProviderIsCaseSensitive | script.js:191-199 | keywords are matched case-sensitively: `openai/GPT-4` is labelled Various |
| Selection.AddProperties | script.js:202 | `Set.add` keeps the selection duplicate-free and adds exactly the id; the old selection is a prefix of the new; an id already present changes nothing and keeps its place |
| Selection.RemoveMembers | script.js:204 | `Set.delete` keeps exactly the members other than the id |
| Selection.RemoveAppend | script.js:204 | deleting from a concatenation deletes from both parts: the order of the others is kept |
| Selection.RemoveAbsent | script.js:204 | deleting an absent id changes nothing |
| Selection.RemoveDistinct | script.js:204 | deleting keeps the selection duplicate-free and never lengthens it |
| Selection.ToggleRoundTrip | script.js:201-206 | adding an absent id and then deleting it restores the prior selection |
| Selection.AddAllProperties | script.js:252-255 | after adding every view id the selection is duplicate-free; its members are the prior members and the view's ids, with the prior selection as a prefix |
| Selection.RemoveAllProperties | script.js:264-267 | after deleting every view id the selection is duplicate-free; its members are the prior members outside the view |
| App.OpenRouterApp.ToggleModel | script.js:201-212 | selecting adds the id, deselecting removes exactly it; membership of every other id is kept. Selecting keeps the prior order as a prefix. Asking for the state the id already has changes nothing. The selection stays duplicate-free, and the catalog and grid are kept |
| App.OpenRouterApp.RemoveSelectedModel | script.js:246-248 | the chip's remove button deselects exactly that id |
| App.OpenRouterApp.SelectAllModels | script.js:250-260 | every id of the view becomes selected and ids outside the view keep their membership; the prior selection stays a prefix; an empty view changes nothing |
| App.OpenRouterApp.ClearAllModels | script.js:262-272 | no id of the view stays selected and ids outside the view keep their membership; an empty view changes nothing |
| Labels.CountLabelCases | script.js:274-279 | the label is `No models selected` for 0, `1 model selected` for 1 and `N models selected` for 2 or more |
| Labels.CountLabelInjective | script.js:274-279 | different counts give different labels |
| Labels.SendButtonDisabled | script.js:281-285 | the button is disabled iff the prompt is blank, or nothing is selected, or a request is loading |
| Labels.GetGridClass | script.js:644-649 | the class is empty iff there are fewer than two cards; otherwise it is `response-grid-` followed by the count, capped at 4 |
| Labels.TruncateProperties | script.js:238 | a chip label is at most 28 characters; names of 25 characters or fewer are kept; longer ones become their first 25 characters plus `...`; truncating again changes nothing |
| Labels.Chips | script.js:229-243 | one chip per selected id, in selection order, titled with the display name and labelled with its truncation |
| Labels.ChipsForStaleIds | script.js:231-238 | a selected id the catalog lacks shows its raw id, and every chip label fits in 28 characters |
| Responses.DecodeContentCases | script.js:427-433 | no choices gives `No response generated`; a truthy `message.content` wins over a truthy `text`; neither gives `No content in response`; the content is never empty |
| Responses.DecodeTokensCases | script.js:428-437 | no `usage` gives 0; a non-zero `total_tokens` is taken; otherwise the sum of prompt and completion tokens when both are present, else 0 |
| Responses.DecodeTokensExample | script.js:435-437 | 10 prompt and 5 completion tokens without a total count as 15 |
| Responses.RegularErrorMessage | script.js:411-419 | a truthy `error.message` is the message; otherwise, including when the error body cannot be read, it is `HTTP <status>: <statusText>` |
| Responses.RegularErrorNamesStatus | script.js:416-418 | the status-line fallback's digits after `HTTP ` read back as the status code |
| Responses.SendRegularRequest | script.js:411-444 | the request fails iff the status is not 2xx or the 2xx body cannot be read. A non-2xx status fails with the regular error message; an unreadable body fails with what reading it threw; a readable body is decoded |
| Responses.StreamErrorMessage | script.js:470-473 | a truthy `error.message`, otherwise `HTTP <status>`; the message is never empty |
| Responses.SendStreamingRequest | script.js:470-514 | the read loop over the chunks returns the streaming result and reports the streaming updates of the given response |
| Responses.DecodeLines | script.js:485-508 | the loop over one chunk's lines extends the accumulators to the frames of those lines |
| Responses.DecodeLine | script.js:488-507 | one loop pass extends the accumulators by the line's frame: content by a truthy delta, an update for it, the count by a non-zero total |
| Responses.FramesOfAppend | script.js:488-508 | the frames of concatenated lines are the concatenated frames |
| Responses.DoneIsSkipped | script.js:489-491 | `[DONE]` is skipped, not a terminator: decoding goes on as if the line were absent |
| Responses.UndecodableLineIsSkipped | script.js:489-506 | a line without the `data: ` prefix, or with a payload that does not parse, is skipped without stopping the loop |
| Responses.StreamTextAppend | script.js:495-497 | the streamed text of lines `a + b` is that of `a` followed by that of `b` |
| Responses.SnapshotsGrow | script.js:496-499 | there is one update per delta; each update extends the previous one strictly; the last update is the whole content |
| Responses.LastTotalIsLastNonZero | script.js:501-503 | the token count is 0 when no frame had a non-zero total, and otherwise the last non-zero `total_tokens` |
| Responses.TwoChunkStream | script.js:481-514 | deltas `d1` and `d2` over two chunks, then `[DONE]`: the reply is `d1 + d2` with the last total, reached through the updates `d1` and `d1 + d2` |
| Responses.WholeLineFrames | script.js:485-503 | a complete `data: ` line in one chunk yields its frame |
| Responses.SplitLineIsLost | script.js:485-491 | a `data: ` line divided between two chunks yields no frame, though undivided it yields one |
| Cards.Placeholders | script.js:517-545 | one loading card per selected id, in order, titled with the display name and subtitled with the provider |
| Cards.OutcomeText | script.js:578-580 | a reply's text is its content, or `No response generated` when the content is empty; a failure reads `Error: ` followed by the message, or by `Unknown error` when the message is empty |
| Cards.FinalCard | script.js:568-598 | the final card keeps the model's title and provider; its class says success or error; it shows the outcome text, the duration, and a token count only on success |
| Cards.FirstCardFrom | script.js:551-558 | the search finds the first card with the id at or after the start, and otherwise reports that none has it |
| Cards.FirstCardAt | script.js:551-558 | the first card for an id is at `k` when card `k` has the id and no earlier card does |
| Cards.FirstCardOfDistinct | script.js:551-558 | with distinct card ids, the search for card `k`'s id finds `k` |
| Cards.WithFinalOnlyFirst | script.js:547-598 | `updateResponseCard` rewrites only the first matching card, keeps every other card and every id, and is a no-op when no card matches |
| Cards.StreamText | script.js:636 | the streamed text is the content when it is non-empty, and `Generating response...` when it is empty |
| Cards.WithStreamTextOnlyFirst | script.js:617-642 | `updateStreamingContent` changes only the text of the first matching card, keeps the other cards and every id, and is a no-op when no card matches |
| Cards.FailureCard | script.js:573-596 | a failure card has the error class, reads `Error: ` followed by the message or `Unknown error`, and shows no token count |
| Dispatch.OutcomeOf | script.js:341-370 | a result becomes an answer with the measured duration, or a failure with `duration: 0` and the error message; it is an answer iff the request succeeded |
| Dispatch.AttemptFor | script.js:324-370 | one model's request is for that model; a failure has duration 0; only a streamed request reports updates |
| Dispatch.AttemptsAt | script.js:319-324 | there is one request per selected id, the `k`-th for the `k`-th id |
| Dispatch.OutcomesAt | script.js:316-378 | there is one outcome per request, the `k`-th of the `k`-th |
| Dispatch.OutcomePerModel | script.js:316-379 | exactly one outcome per selected id, for that id. A failure has duration 0 and carries the message of its own exchange, whatever the other models did: the transport message, the HTTP error message, or what reading an unreadable body threw |
| Dispatch.ApplyStreamOnlyOwnCard | script.js:496-499 | a model's streaming updates touch only its own card and keep every id |
| Dispatch.AfterAttemptOnlyOwnCard | script.js:349-368 | a finished request turns its own card into its final card and leaves every other card as it was |
| Dispatch.PrefixStep | script.js:349-368 | one more finished request finalises the next loading card and no other |
| Dispatch.AfterPrefix | script.js:324-375 | after the first requests, their cards are final and the other cards are still loading |
| Dispatch.DispatchFinalizesEveryCard | script.js:300-379 | for distinct selected ids, dispatch finalises every loading card with its own model's outcome, one outcome per id in selection order |
| App.OpenRouterApp.RenderLoadingResponses | script.js:517-545 | the grid becomes one loading card per selected id, with the column class for that count |
| App.OpenRouterApp.UpdateResponseCard | script.js:547-615 | the search in grid order rewrites the first card for the model with its final card; nothing else changes |
| App.OpenRouterApp.UpdateStreamingContent | script.js:617-642 | the search in grid order replaces the text of the first card for the model; nothing else changes |
| App.OpenRouterApp.ProcessModel | script.js:325-370 | one model's request is sent, its streamed contents are applied to the grid, and its card is finalised with its outcome |
| App.OpenRouterApp.ProcessModels | script.js:316-379 | the outcomes are those of one request per selected id, in selection order; the grid is the fold of those requests; the catalog and selection are kept |
| App.OpenRouterApp.SubmitPrompt | script.js:300-313 | loading cards, dispatch, then loading off: every card is its own model's final card, one outcome per selected id, and the selection stays duplicate-free |
| App.OpenRouterApp.SendPrompt | script.js:287-314 | a prompt is sent iff the trimmed prompt is non-empty and something is selected; otherwise nothing changes; when sent, the trimmed prompt reaches every selected model and every card ends final |
| Text.Trim | script.js:288 | `trim` yields the input with a blank prefix and a blank suffix removed; the result is empty iff the input is blank, and otherwise neither starts nor ends with whitespace |
| Text.ContainsAt | script.js:184-186 | `includes` holds iff the term occurs at some position |
| Text.LowerIdempotent | script.js:180-185 | lowercasing twice is lowercasing once |
| Text.JoinSplit | script.js:486 | joining the pieces of `split` gives back the chunk |
| Text.NatToStringRoundTrip | script.js:278 | the decimal rendering of a count reads back as that count |

## Left out

- The DOM is not modelled: markup, CSS classes on the dropdown, event listeners, scrolling, repaint and `escapeHtml` (script.js:13-71, 131-156, 651-696). The model keeps only each card's id, title, subtitle, status, text and footer.
- `renderFilteredModels` and `updateModelOptionState` only redraw the option list (script.js:131-156, 214-219), so they are not modelled.
- `localStorage`, the `setTimeout` auto-load, `showError`/`hideError` with their timers, toasts and `copyToClipboard` are browser I/O and are not modelled.
- `fetch`, its headers and request bodies are not part of this model. Each request's result is an input: `Dispatch.Network` for completions and the `fetched` parameter of `LoadModels` for the catalog.
- `JSON.parse` of a streamed payload is the `parse` parameter. A regular 2xx body arrives as a `Responses.CompletionBody`: the parsed `Completion`, or the message that `response.json()` or reading `choices` threw.
- `Date.now` is not modelled: each response's duration is an input.
- App.OpenRouterApp.ProcessModels: the requests run one after the other, and the outcomes are listed in selection order. In the source they run concurrently under `Promise.allSettled`, and `responses.push` follows settle order. Card contents do not depend on that order, because each request touches only its own card (`Dispatch.AfterAttemptOnlyOwnCard`).
- App.OpenRouterApp.ProcessModel: a model's streaming updates are applied to its card after its request returns and just before its final card. In the source they arrive while the request runs. The grid ends the same way, because the updates touch only that model's card.
- An exception thrown while a stream is being read (script.js:481-509) leaves `sendStreamingRequest` and is caught by the per-model `catch` at script.js:356-370. It ends as a failure with duration 0, whose final card replaces any streamed text. The model expresses it as `Dispatch.Exchange.Unreachable(message)`, and it does not model the streamed updates made before the error.
- The `catch` in `sendPrompt` (script.js:308-310) is unreachable: each per-model promise catches its own errors and `Promise.allSettled` never rejects. Only its `finally` (loading off) is modelled. `renderResponses` does nothing, so it is not modelled either.
- Responses.Frame: token counts are natural numbers. Negative, fractional or `null` counts from the gateway are not modelled. `null` and an absent field are the same `None`.
- Text.Lower: `toLowerCase` is modelled for ASCII letters only.
- Labels.Truncate: counts code points, where JavaScript counts UTF-16 code units.
- The search box's text is not a field. `filterModels` takes the term and `toggleDropdown(false)` clears it.
- The request header fields that carry the API key are not modelled. `LoadModels` stores the trimmed key.
