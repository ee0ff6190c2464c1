/** Decoding the gateway's answers to a completion request: the single JSON
    reply of a regular request, the error message of a rejected one, and the
    `data: ` frames of a streamed one. JSON parsing itself is not modelled:
    a regular reply arrives as the fields the decoder reads, and each streamed
    payload goes through a parsing oracle. */
module Responses {
  import opened Wrappers
  import opened Text

  const NoResponseGenerated := "No response generated"
  const NoContentInResponse := "No content in response"

  /** What a request yields on success: the text to show and the token count. */
  datatype Reply = Reply(content: string, tokensUsed: nat)

  /** HTTP outcome of a request: a non-2xx status, with the error body's
      `error.message` when the body could be read (`None` when reading it as
      JSON threw), or a 2xx status with its body. */
  datatype HttpResponse<B> =
    | NotOk(status: nat, statusText: string, errorBody: Option<Option<string>>)
    | Ok(body: B)

  /** JavaScript truthiness of an optional string or number. */
  predicate Truthy(s: Option<string>) {
    s.Some? && s.value != ""
  }

  predicate NonZero(n: Option<nat>) {
    n.Some? && n.value != 0
  }

  // ---------------------------------------------------------------------
  // Regular (non-streaming) requests

  /** The fields of `choices[i]` the decoder reads: `message.content` and `text`. */
  datatype Choice = Choice(messageContent: Option<string>, text: Option<string>)

  /** The fields of `usage`: `total_tokens`, `prompt_tokens`, `completion_tokens`. */
  datatype Usage = Usage(totalTokens: Option<nat>, promptTokens: Option<nat>, completionTokens: Option<nat>)

  /** A parsed completion body: its `choices` array and `usage` object, each
      possibly absent. */
  datatype Completion = Completion(choices: Option<seq<Choice>>, usage: Option<Usage>)

  /** `choice.message?.content || choice.text || 'No content in response'`. */
  function ChoiceContent(c: Choice): string {
    if Truthy(c.messageContent) then c.messageContent.value
    else if Truthy(c.text) then c.text.value
    else NoContentInResponse
  }

  /** `usage.total_tokens || usage.prompt_tokens + usage.completion_tokens || 0`;
      a missing operand makes the sum `NaN`, which is falsy. */
  function UsageTokens(u: Usage): nat {
    if NonZero(u.totalTokens) then u.totalTokens.value
    else if u.promptTokens.Some? && u.completionTokens.Some? then u.promptTokens.value + u.completionTokens.value
    else 0
  }

  /** The content and token count `sendRegularRequest` extracts from a body. */
  function DecodeCompletion(c: Completion): Reply {
    var content :=
      if c.choices.Some? && |c.choices.value| > 0 then ChoiceContent(c.choices.value[0])
      else NoResponseGenerated;
    var tokens := if c.usage.Some? then UsageTokens(c.usage.value) else 0;
    Reply(content, tokens)
  }

  /** The content fallbacks: no choices gives `No response generated`; the
      first choice's truthy `message.content` wins over its truthy `text`;
      neither gives `No content in response`. The content is never empty. */
  lemma DecodeContentCases(c: Completion)
    ensures var r := DecodeCompletion(c);
      && r.content != ""
      && ((c.choices.None? || c.choices.value == []) ==> r.content == NoResponseGenerated)
      && (c.choices.Some? && c.choices.value != [] ==>
            var first := c.choices.value[0];
            && (Truthy(first.messageContent) ==> r.content == first.messageContent.value)
            && (!Truthy(first.messageContent) && Truthy(first.text) ==> r.content == first.text.value)
            && (!Truthy(first.messageContent) && !Truthy(first.text) ==> r.content == NoContentInResponse))
  {
  }

  /** The token fallbacks: a non-zero `total_tokens`; otherwise the sum of
      prompt and completion tokens when both are present; otherwise 0. */
  lemma DecodeTokensCases(c: Completion)
    ensures var r := DecodeCompletion(c);
      && (c.usage.None? ==> r.tokensUsed == 0)
      && (c.usage.Some? && NonZero(c.usage.value.totalTokens) ==> r.tokensUsed == c.usage.value.totalTokens.value)
      && (c.usage.Some? && !NonZero(c.usage.value.totalTokens) ==>
            r.tokensUsed == (if c.usage.value.promptTokens.Some? && c.usage.value.completionTokens.Some?
                             then c.usage.value.promptTokens.value + c.usage.value.completionTokens.value else 0))
  {
  }

  /** Without `total_tokens`, 10 prompt and 5 completion tokens count as 15. */
  lemma DecodeTokensExample(choices: Option<seq<Choice>>)
    ensures DecodeCompletion(Completion(choices, Some(Usage(None, Some(10), Some(5))))).tokensUsed == 15
  {
  }

  /** `errorData.error?.message || `HTTP ${status}: ${statusText}``, where an
      unreadable error body also falls back to the status line. */
  function RegularErrorMessage(status: nat, statusText: string, errorBody: Option<Option<string>>): (msg: string)
    ensures msg != ""
    ensures errorBody.Some? && Truthy(errorBody.value) ==> msg == errorBody.value.value
    ensures !(errorBody.Some? && Truthy(errorBody.value)) ==>
              "HTTP " <= msg && msg == "HTTP " + NatToString(status) + ": " + statusText
  {
    if errorBody.Some? && Truthy(errorBody.value) then errorBody.value.value
    else "HTTP " + NatToString(status) + ": " + statusText
  }

  /** The status-line fallback names the status: its digits after `HTTP `
      read back as the status code. */
  lemma RegularErrorNamesStatus(status: nat, statusText: string, errorBody: Option<Option<string>>)
    requires !(errorBody.Some? && Truthy(errorBody.value))
    ensures var msg := RegularErrorMessage(status, statusText, errorBody);
      var digits := NatToString(status);
      |msg| >= 5 + |digits| && msg[5..5 + |digits|] == digits && DigitsValue(msg[5..5 + |digits|]) == status
  {
    var msg := RegularErrorMessage(status, statusText, errorBody);
    var digits := NatToString(status);
    assert msg[5..5 + |digits|] == digits;
    NatToStringRoundTrip(status);
  }

  /** The body of a 2xx regular response: the parsed completion, or the
      message of what reading it threw (`response.json()` on a body that is
      not JSON, `data.choices` on a `null` body, `choice.message` on a `null`
      first choice). */
  type CompletionBody = Result<Completion, string>

  /** `sendRegularRequest` once the response is in: a non-2xx status throws
      the error message, a 2xx body that cannot be read throws what reading
      it threw, and a readable body is decoded. */
  function SendRegularRequest(response: HttpResponse<CompletionBody>): (r: Result<Reply, string>)
    ensures r.Failure? <==> response.NotOk? || response.body.Failure?
    ensures response.NotOk? ==> r.error == RegularErrorMessage(response.status, response.statusText, response.errorBody)
    ensures response.Ok? && response.body.Failure? ==> r.error == response.body.error
    ensures response.Ok? && response.body.Success? ==> r.value == DecodeCompletion(response.body.value)
  {
    match response
    case NotOk(status, statusText, errorBody) => Failure(RegularErrorMessage(status, statusText, errorBody))
    case Ok(Failure(thrown)) => Failure(thrown)
    case Ok(Success(body)) => Success(DecodeCompletion(body))
  }

  // ---------------------------------------------------------------------
  // Streaming requests

  /** What the parsing oracle extracts from one payload: `choices[0]?.delta?.content`
      and `usage?.total_tokens`. The oracle answers `None` when `JSON.parse`
      throws or `choices` is missing (reading `choices[0]` throws). */
  datatype Frame = Frame(delta: Option<string>, totalTokens: Option<nat>)

  const DataPrefix := "data: "
  const DoneMarker := "[DONE]"
  const DoneLine := DataPrefix + DoneMarker

  /** The frame one line contributes: only a `data: ` line whose payload is
      not `[DONE]` and parses contributes one. */
  function LineFrames(parse: string -> Option<Frame>, line: string): seq<Frame> {
    if DataPrefix <= line && line[|DataPrefix|..] != DoneMarker then
      match parse(line[|DataPrefix|..])
      case Some(f) => [f]
      case None => []
    else []
  }

  /** The frames of a sequence of lines, in order. */
  function FramesOf(parse: string -> Option<Frame>, lines: seq<string>): seq<Frame> {
    if |lines| == 0 then []
    else FramesOf(parse, lines[..|lines| - 1]) + LineFrames(parse, lines[|lines| - 1])
  }

  /** The lines the reader sees: each chunk split on `\n` by itself, with no
      buffer carrying a partial line over to the next chunk. */
  function ChunkLines(chunks: seq<string>): seq<string> {
    if |chunks| == 0 then []
    else ChunkLines(chunks[..|chunks| - 1]) + Split(chunks[|chunks| - 1], '\n')
  }

  /** The truthy deltas of the frames, in order. */
  function Deltas(frames: seq<Frame>): (ds: seq<string>)
    ensures forall k :: 0 <= k < |ds| ==> ds[k] != ""
  {
    if |frames| == 0 then []
    else
      var f := frames[|frames| - 1];
      Deltas(frames[..|frames| - 1]) + (if Truthy(f.delta) then [f.delta.value] else [])
  }

  function Concat(ss: seq<string>): string {
    if |ss| == 0 then [] else Concat(ss[..|ss| - 1]) + ss[|ss| - 1]
  }

  /** The content after each delta: what each streaming update shows. */
  function Snapshots(ds: seq<string>): seq<string> {
    if |ds| == 0 then [] else Snapshots(ds[..|ds| - 1]) + [Concat(ds)]
  }

  /** The last non-zero `total_tokens` of the frames, or 0. */
  function LastTotal(frames: seq<Frame>): nat {
    if |frames| == 0 then 0
    else if NonZero(frames[|frames| - 1].totalTokens) then frames[|frames| - 1].totalTokens.value
    else LastTotal(frames[..|frames| - 1])
  }

  /** `errorData.error?.message || `HTTP ${status}``; an unreadable error
      body reads as `{}`. */
  function StreamErrorMessage(status: nat, errorBody: Option<Option<string>>): (msg: string)
    ensures msg != ""
    ensures errorBody.Some? && Truthy(errorBody.value) ==> msg == errorBody.value.value
    ensures !(errorBody.Some? && Truthy(errorBody.value)) ==> msg == "HTTP " + NatToString(status)
  {
    if errorBody.Some? && Truthy(errorBody.value) then errorBody.value.value
    else "HTTP " + NatToString(status)
  }

  /** What `sendStreamingRequest` returns or throws. */
  function StreamingResult(parse: string -> Option<Frame>, response: HttpResponse<seq<string>>): Result<Reply, string> {
    match response
    case NotOk(status, _, errorBody) => Failure(StreamErrorMessage(status, errorBody))
    case Ok(chunks) =>
      var frames := FramesOf(parse, ChunkLines(chunks));
      var content := Concat(Deltas(frames));
      Success(Reply(if content == "" then NoResponseGenerated else content, LastTotal(frames)))
  }

  /** The contents `sendStreamingRequest` passes to `updateStreamingContent`,
      in order. */
  function StreamingUpdates(parse: string -> Option<Frame>, response: HttpResponse<seq<string>>): seq<string> {
    match response
    case NotOk(_, _, _) => []
    case Ok(chunks) => Snapshots(Deltas(FramesOf(parse, ChunkLines(chunks))))
  }

  /** The accumulators of the read loop after the given lines. */
  ghost predicate Decoded(parse: string -> Option<Frame>, lines: seq<string>, content: string, tokensUsed: nat, updates: seq<string>) {
    var frames := FramesOf(parse, lines);
    && content == Concat(Deltas(frames))
    && tokensUsed == LastTotal(frames)
    && updates == Snapshots(Deltas(frames))
  }

  /** One more line extends the frames by that line's frame. */
  lemma FramesOfSnoc(parse: string -> Option<Frame>, lines: seq<string>, line: string)
    ensures FramesOf(parse, lines + [line]) == FramesOf(parse, lines) + LineFrames(parse, line)
  {
    assert (lines + [line])[..|lines|] == lines;
  }

  /** One more frame updates the accumulators as the loop body does. */
  lemma DecodedSnoc(frames: seq<Frame>, f: Frame)
    ensures Deltas(frames + [f]) == Deltas(frames) + (if Truthy(f.delta) then [f.delta.value] else [])
    ensures LastTotal(frames + [f]) == if NonZero(f.totalTokens) then f.totalTokens.value else LastTotal(frames)
    ensures Truthy(f.delta) ==>
              && Concat(Deltas(frames + [f])) == Concat(Deltas(frames)) + f.delta.value
              && Snapshots(Deltas(frames + [f])) == Snapshots(Deltas(frames)) + [Concat(Deltas(frames)) + f.delta.value]
  {
    assert (frames + [f])[..|frames|] == frames;
    if Truthy(f.delta) {
      var ds := Deltas(frames) + [f.delta.value];
      assert ds[..|ds| - 1] == Deltas(frames);
    }
  }

  /** A line that contributes no frame leaves the accumulators as they are. */
  lemma StepWithoutFrame(parse: string -> Option<Frame>, seen: seq<string>, line: string,
                         content: string, tokensUsed: nat, updates: seq<string>)
    requires Decoded(parse, seen, content, tokensUsed, updates)
    requires LineFrames(parse, line) == []
    ensures Decoded(parse, seen + [line], content, tokensUsed, updates)
  {
    FramesOfSnoc(parse, seen, line);
    assert FramesOf(parse, seen) + [] == FramesOf(parse, seen);
  }

  /** A line that contributes a frame appends its truthy delta to the
      content, records the new content as an update, and takes its non-zero
      token count. */
  lemma StepWithFrame(parse: string -> Option<Frame>, seen: seq<string>, line: string, f: Frame,
                      content: string, tokensUsed: nat, updates: seq<string>)
    requires Decoded(parse, seen, content, tokensUsed, updates)
    requires LineFrames(parse, line) == [f]
    ensures var content' := if Truthy(f.delta) then content + f.delta.value else content;
      Decoded(parse, seen + [line], content',
              if NonZero(f.totalTokens) then f.totalTokens.value else tokensUsed,
              if Truthy(f.delta) then updates + [content'] else updates)
  {
    FramesOfSnoc(parse, seen, line);
    DecodedSnoc(FramesOf(parse, seen), f);
    if !Truthy(f.delta) {
      assert Deltas(FramesOf(parse, seen)) + [] == Deltas(FramesOf(parse, seen));
    }
  }

  /** The body of the read loop for one line: a `data: ` line other than
      `[DONE]` is parsed; a truthy delta is appended to the content and the
      content so far is reported; a non-zero `total_tokens` replaces the
      count. */
  method DecodeLine(parse: string -> Option<Frame>, ghost seen: seq<string>, line: string,
                    content0: string, tokensUsed0: nat, updates0: seq<string>)
    returns (content: string, tokensUsed: nat, updates: seq<string>)
    requires Decoded(parse, seen, content0, tokensUsed0, updates0)
    ensures Decoded(parse, seen + [line], content, tokensUsed, updates)
  {
    content, tokensUsed, updates := content0, tokensUsed0, updates0;
    var frame: Option<Frame> := None;
    if DataPrefix <= line {
      var data := line[|DataPrefix|..];
      if data != DoneMarker {
        frame := parse(data);
      }
    }
    if frame.Some? {
      var f := frame.value;
      StepWithFrame(parse, seen, line, f, content, tokensUsed, updates);
      if f.delta.Some? && f.delta.value != "" {
        content := content + f.delta.value;
        updates := updates + [content];
      }
      if f.totalTokens.Some? && f.totalTokens.value != 0 {
        tokensUsed := f.totalTokens.value;
      }
    } else {
      StepWithoutFrame(parse, seen, line, content, tokensUsed, updates);
    }
  }

  lemma TakeOneMore(seen: seq<string>, lines: seq<string>, j: nat)
    requires j < |lines|
    ensures seen + lines[..j + 1] == (seen + lines[..j]) + [lines[j]]
  {
    assert lines[..j + 1] == lines[..j] + [lines[j]];
  }

  /** The read loop over the lines of one decoded chunk. */
  method DecodeLines(parse: string -> Option<Frame>, ghost seen: seq<string>, lines: seq<string>,
                     content0: string, tokensUsed0: nat, updates0: seq<string>)
    returns (content: string, tokensUsed: nat, updates: seq<string>)
    requires Decoded(parse, seen, content0, tokensUsed0, updates0)
    ensures Decoded(parse, seen + lines, content, tokensUsed, updates)
  {
    content, tokensUsed, updates := content0, tokensUsed0, updates0;
    var j := 0;
    assert seen + lines[..0] == seen;
    while j < |lines|
      invariant 0 <= j <= |lines|
      invariant Decoded(parse, seen + lines[..j], content, tokensUsed, updates)
    {
      TakeOneMore(seen, lines, j);
      content, tokensUsed, updates := DecodeLine(parse, seen + lines[..j], lines[j], content, tokensUsed, updates);
      j := j + 1;
    }
    assert lines[..j] == lines;
  }

  /** The streaming read loop of `sendStreamingRequest` over the decoded
      chunks: every `data: ` line other than `[DONE]` is parsed; a truthy
      delta is appended to the content and the content so far is reported;
      a non-zero `total_tokens` replaces the count. */
  method SendStreamingRequest(parse: string -> Option<Frame>, response: HttpResponse<seq<string>>)
    returns (result: Result<Reply, string>, updates: seq<string>)
    ensures result == StreamingResult(parse, response)
    ensures updates == StreamingUpdates(parse, response)
  {
    if response.NotOk? {
      return Failure(StreamErrorMessage(response.status, response.errorBody)), [];
    }
    var chunks := response.body;
    var content := "";
    var tokensUsed: nat := 0;
    updates := [];
    var i := 0;
    while i < |chunks|
      invariant 0 <= i <= |chunks|
      invariant Decoded(parse, ChunkLines(chunks[..i]), content, tokensUsed, updates)
    {
      content, tokensUsed, updates := DecodeLines(parse, ChunkLines(chunks[..i]), Split(chunks[i], '\n'), content, tokensUsed, updates);
      assert chunks[..i + 1][..i] == chunks[..i];
      i := i + 1;
    }
    assert chunks[..i] == chunks;
    result := Success(Reply(if content == "" then NoResponseGenerated else content, tokensUsed));
  }

  // ---------------------------------------------------------------------
  // Properties of the streaming decoder

  /** The frames of concatenated lines are the concatenated frames. */
  lemma {:induction false} FramesOfAppend(parse: string -> Option<Frame>, a: seq<string>, b: seq<string>)
    ensures FramesOf(parse, a + b) == FramesOf(parse, a) + FramesOf(parse, b)
    decreases |b|
  {
    if |b| == 0 {
      assert a + b == a;
    } else {
      var init := b[..|b| - 1];
      FramesOfAppend(parse, a, init);
      assert (a + b)[..|a + b| - 1] == a + init;
      assert (a + b)[|a + b| - 1] == b[|b| - 1];
    }
  }

  /** `[DONE]` is skipped, not a terminator: the lines after it are still
      decoded, exactly as if it were absent. */
  lemma DoneIsSkipped(parse: string -> Option<Frame>, before: seq<string>, after: seq<string>)
    ensures FramesOf(parse, before + [DoneLine] + after) == FramesOf(parse, before + after)
  {
    FramesOfAppend(parse, before + [DoneLine], after);
    FramesOfAppend(parse, before, after);
    FramesOfSnoc(parse, before, DoneLine);
    assert DoneLine[|DataPrefix|..] == DoneMarker;
  }

  /** A `data: ` line whose payload does not parse, and a line without the
      `data: ` prefix, are skipped without stopping the decoding. */
  lemma UndecodableLineIsSkipped(parse: string -> Option<Frame>, before: seq<string>, line: string, after: seq<string>)
    requires !(DataPrefix <= line) || parse(line[|DataPrefix|..]).None?
    ensures FramesOf(parse, before + [line] + after) == FramesOf(parse, before + after)
  {
    FramesOfAppend(parse, before + [line], after);
    FramesOfAppend(parse, before, after);
    FramesOfSnoc(parse, before, line);
  }

  lemma {:induction false} DeltasAppend(a: seq<Frame>, b: seq<Frame>)
    ensures Deltas(a + b) == Deltas(a) + Deltas(b)
    decreases |b|
  {
    if |b| == 0 {
      assert a + b == a;
    } else {
      var init := b[..|b| - 1];
      DeltasAppend(a, init);
      assert (a + b)[..|a + b| - 1] == a + init;
      assert (a + b)[|a + b| - 1] == b[|b| - 1];
    }
  }

  lemma {:induction false} ConcatAppend(a: seq<string>, b: seq<string>)
    ensures Concat(a + b) == Concat(a) + Concat(b)
    decreases |b|
  {
    if |b| == 0 {
      assert a + b == a;
    } else {
      var init := b[..|b| - 1];
      ConcatAppend(a, init);
      assert (a + b)[..|a + b| - 1] == a + init;
      assert (a + b)[|a + b| - 1] == b[|b| - 1];
    }
  }

  /** The streamed content is the in-order concatenation of the content of
      the parts: the text of lines `a + b` is the text of `a` followed by the
      text of `b`. */
  lemma StreamTextAppend(parse: string -> Option<Frame>, a: seq<string>, b: seq<string>)
    ensures Concat(Deltas(FramesOf(parse, a + b)))
         == Concat(Deltas(FramesOf(parse, a))) + Concat(Deltas(FramesOf(parse, b)))
  {
    FramesOfAppend(parse, a, b);
    DeltasAppend(FramesOf(parse, a), FramesOf(parse, b));
    ConcatAppend(Deltas(FramesOf(parse, a)), Deltas(FramesOf(parse, b)));
  }

  /** Each streaming update extends the previous one by a non-empty delta,
      there is one update per delta, and the last one is the whole text. */
  lemma {:induction false} SnapshotsGrow(ds: seq<string>)
    requires forall k :: 0 <= k < |ds| ==> ds[k] != ""
    ensures |Snapshots(ds)| == |ds|
    ensures forall k :: 0 < k < |ds| ==> Snapshots(ds)[k - 1] <= Snapshots(ds)[k] && |Snapshots(ds)[k - 1]| < |Snapshots(ds)[k]|
    ensures |ds| > 0 ==> Snapshots(ds)[|ds| - 1] == Concat(ds)
  {
    if |ds| > 0 {
      var init := ds[..|ds| - 1];
      SnapshotsGrow(init);
      if |init| > 0 {
        assert Snapshots(init)[|init| - 1] == Concat(init);
        assert Concat(ds) == Concat(init) + ds[|ds| - 1];
      }
    }
  }

  /** The token count is the last non-zero `total_tokens` seen: either 0 and
      no frame reported one, or reported by some frame after which none was. */
  lemma {:induction false} LastTotalIsLastNonZero(frames: seq<Frame>)
    ensures var t := LastTotal(frames);
      || (t == 0 && forall k :: 0 <= k < |frames| ==> !NonZero(frames[k].totalTokens))
      || (exists k :: 0 <= k < |frames| && frames[k].totalTokens == Some(t) && t != 0
            && forall j :: k < j < |frames| ==> !NonZero(frames[j].totalTokens))
  {
    if |frames| > 0 {
      var init := frames[..|frames| - 1];
      LastTotalIsLastNonZero(init);
      if !NonZero(frames[|frames| - 1].totalTokens) {
        assert forall k :: 0 <= k < |init| ==> init[k] == frames[k];
      }
    }
  }

  /** A line without a newline, followed by a newline, splits into that
      line and an empty last piece. */
  lemma SplitLine(line: string)
    requires '\n' !in line
    ensures Split(line + "\n", '\n') == [line, ""]
  {
    assert line + "\n" == line + ['\n'] + "";
    SplitAtSeparator(line, "", '\n');
  }

  /** A `data: ` line whose payload is not `[DONE]` contributes the frame its
      payload parses to, if any. */
  lemma DataLineFrames(parse: string -> Option<Frame>, payload: string)
    requires payload != DoneMarker
    ensures LineFrames(parse, DataPrefix + payload) == match parse(payload) case Some(f) => [f] case None => []
  {
    assert (DataPrefix + payload)[|DataPrefix|..] == payload;
  }

  /** The lines of two chunks are the lines of the first followed by the
      lines of the second. */
  lemma ChunkLinesOfTwo(c1: string, c2: string)
    ensures ChunkLines([c1, c2]) == Split(c1, '\n') + Split(c2, '\n')
  {
    assert [c1, c2][..1] == [c1];
    assert [c1][..0] == [];
    assert ChunkLines([c1]) == [] + Split(c1, '\n');
  }

  /** The lines of the two-chunk stream below. */
  lemma TwoChunkLines(l1: string, l2: string)
    requires '\n' !in l1 && '\n' !in l2
    ensures ChunkLines([l1 + "\n", l2 + "\n" + DoneLine + "\n"]) == [l1, "", l2, DoneLine, ""]
  {
    var c2 := l2 + "\n" + DoneLine + "\n";
    ChunkLinesOfTwo(l1 + "\n", c2);
    SplitLine(l1);
    assert c2 == l2 + ['\n'] + (DoneLine + "\n");
    SplitAtSeparator(l2, DoneLine + "\n", '\n');
    SplitLine(DoneLine);
  }

  /** The frames of the two-chunk stream below. */
  lemma TwoChunkFrames(parse: string -> Option<Frame>, p1: string, p2: string, f1: Frame, f2: Frame)
    requires p1 != DoneMarker && p2 != DoneMarker
    requires parse(p1) == Some(f1) && parse(p2) == Some(f2)
    ensures FramesOf(parse, [DataPrefix + p1, "", DataPrefix + p2, DoneLine, ""]) == [f1, f2]
  {
    var l1, l2 := DataPrefix + p1, DataPrefix + p2;
    DataLineFrames(parse, p1);
    DataLineFrames(parse, p2);
    assert DoneLine[|DataPrefix|..] == DoneMarker;
    FramesOfSnoc(parse, [], l1);
    assert [] + [l1] == [l1];
    FramesOfSnoc(parse, [l1], "");
    assert [l1] + [""] == [l1, ""];
    FramesOfSnoc(parse, [l1, ""], l2);
    assert [l1, ""] + [l2] == [l1, "", l2];
    FramesOfSnoc(parse, [l1, "", l2], DoneLine);
    assert [l1, "", l2] + [DoneLine] == [l1, "", l2, DoneLine];
    FramesOfSnoc(parse, [l1, "", l2, DoneLine], "");
    assert [l1, "", l2, DoneLine] + [""] == [l1, "", l2, DoneLine, ""];
  }

  /** Two frames carrying the deltas `d1` and `d2`, the second with the
      token count `t`: the content is `d1 + d2`, the count `t`, and the
      updates show `d1` and then `d1 + d2`. */
  lemma TwoFrames(d1: string, d2: string, t: nat)
    requires d1 != "" && d2 != "" && t != 0
    ensures var frames := [Frame(Some(d1), None), Frame(Some(d2), Some(t))];
      && Concat(Deltas(frames)) == d1 + d2
      && LastTotal(frames) == t
      && Snapshots(Deltas(frames)) == [d1, d1 + d2]
  {
    var f1, f2 := Frame(Some(d1), None), Frame(Some(d2), Some(t));
    var one: seq<Frame> := [f1];
    var two := one + [f2];
    assert two == [f1, f2];
    DecodedSnoc([], f1);
    assert [] + [f1] == one;
    assert Deltas(one) == [d1] && Concat(Deltas(one)) == d1 && LastTotal(one) == 0;
    assert Snapshots(Deltas(one)) == [d1];
    DecodedSnoc(one, f2);
  }

  /** A stream of two chunks, `data: p1` and then `data: p2` followed by
      `data: [DONE]`, whose payloads carry the deltas `d1` and `d2` and
      finally the token count `t`: the reply is `d1 + d2` with `t` tokens,
      reached through the updates `d1` and `d1 + d2`. */
  lemma TwoChunkStream(parse: string -> Option<Frame>, p1: string, p2: string, d1: string, d2: string, t: nat)
    requires '\n' !in p1 && '\n' !in p2 && p1 != DoneMarker && p2 != DoneMarker
    requires parse(p1) == Some(Frame(Some(d1), None)) && d1 != ""
    requires parse(p2) == Some(Frame(Some(d2), Some(t))) && d2 != "" && t != 0
    ensures var chunks := [DataPrefix + p1 + "\n", DataPrefix + p2 + "\n" + DoneLine + "\n"];
      && StreamingResult(parse, Ok(chunks)) == Success(Reply(d1 + d2, t))
      && StreamingUpdates(parse, Ok(chunks)) == [d1, d1 + d2]
  {
    var f1, f2 := Frame(Some(d1), None), Frame(Some(d2), Some(t));
    assert '\n' !in DataPrefix + p1 && '\n' !in DataPrefix + p2;
    TwoChunkLines(DataPrefix + p1, DataPrefix + p2);
    TwoChunkFrames(parse, p1, p2, f1, f2);
    TwoFrames(d1, d2, t);
  }

  /** A complete `data: ` line in one chunk yields its frame. */
  lemma WholeLineFrames(parse: string -> Option<Frame>, payload: string, f: Frame)
    requires '\n' !in payload && payload != DoneMarker && parse(payload) == Some(f)
    ensures FramesOf(parse, ChunkLines([DataPrefix + payload + "\n"])) == [f]
  {
    var whole := DataPrefix + payload;
    assert ChunkLines([whole + "\n"]) == [whole, ""] by {
      assert '\n' !in whole;
      SplitLine(whole);
      assert [whole + "\n"][..0] == [];
      assert ChunkLines([whole + "\n"]) == [] + Split(whole + "\n", '\n');
    }
    DataLineFrames(parse, payload);
    FramesOfSnoc(parse, [], whole);
    assert [] + [whole] == [whole];
    FramesOfSnoc(parse, [whole], "");
    assert [whole] + [""] == [whole, ""];
  }

  /** Without a carry-over buffer, a `data: ` line split across two chunks
      is lost: undivided it yields its frame, but divided its first half is a
      payload that does not parse and its second half lacks the prefix. */
  lemma SplitLineIsLost(parse: string -> Option<Frame>, a: string, b: string, f: Frame)
    requires '\n' !in a && '\n' !in b && a + b != DoneMarker && a != DoneMarker
    requires parse(a + b) == Some(f) && parse(a) == None && !(DataPrefix <= b)
    ensures FramesOf(parse, ChunkLines([DataPrefix + (a + b) + "\n"])) == [f]
    ensures FramesOf(parse, ChunkLines([DataPrefix + a, b + "\n"])) == []
  {
    assert '\n' !in a + b;
    WholeLineFrames(parse, a + b, f);
    var first := DataPrefix + a;
    assert ChunkLines([first, b + "\n"]) == [first, b, ""] by {
      assert '\n' !in first;
      SplitNoSeparator(first, '\n');
      SplitLine(b);
      ChunkLinesOfTwo(first, b + "\n");
    }
    DataLineFrames(parse, a);
    FramesOfSnoc(parse, [], first);
    assert [] + [first] == [first];
    FramesOfSnoc(parse, [first], b);
    assert [first] + [b] == [first, b];
    FramesOfSnoc(parse, [first, b], "");
    assert [first, b] + [""] == [first, b, ""];
  }
}
