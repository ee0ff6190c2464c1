/** The model catalog as fetched from the gateway, the provider label derived
    from a model id, and the search filter over the catalog. */
module Catalog {
  import opened Wrappers
  import opened Text

  /** A catalog record: its id and its optional display name. */
  datatype Model = Model(id: string, name: Option<string>)

  /** The ids of the records, in catalog order. */
  function Ids(models: seq<Model>): (ids: seq<string>)
    ensures |ids| == |models|
    ensures forall k :: 0 <= k < |models| ==> ids[k] == models[k].id
  {
    seq(|models|, k requires 0 <= k < |models| => models[k].id)
  }

  /** `model.name || model.id`: an absent or empty name falls back to the id. */
  function DisplayName(m: Model): string {
    if m.name.Some? && m.name.value != "" then m.name.value else m.id
  }

  /** `models.find(m => m.id === id)`: the first record with that id. */
  function FindModel(models: seq<Model>, id: string): (r: Option<Model>)
    ensures r.None? <==> forall k :: 0 <= k < |models| ==> models[k].id != id
    ensures r.Some? ==> exists k :: 0 <= k < |models| && models[k] == r.value && models[k].id == id
                                    && forall j :: 0 <= j < k ==> models[j].id != id
  {
    if models == [] then None
    else if models[0].id == id then Some(models[0])
    else
      var r := FindModel(models[1..], id);
      assert r.Some? ==> exists k :: 1 <= k < |models| && models[k] == r.value && models[k].id == id
                                     && forall j :: 0 <= j < k ==> models[j].id != id by {
        if r.Some? {
          var k :| 0 <= k < |models| - 1 && models[1..][k] == r.value && models[1..][k].id == id
                   && forall j :: 0 <= j < k ==> models[1..][j].id != id;
          assert forall j :: 1 <= j < k + 1 ==> models[j].id != id by {
            forall j | 1 <= j < k + 1 ensures models[j].id != id {
              assert models[j] == models[1..][j - 1];
            }
          }
        }
      }
      r
  }

  /** `model?.name || modelId` with `model` found by id: the catalog's display
      name, or the raw id when the catalog has no record for it. */
  function DisplayNameFor(models: seq<Model>, id: string): (r: string)
    ensures (forall k :: 0 <= k < |models| ==> models[k].id != id) ==> r == id
  {
    match FindModel(models, id)
    case Some(m) => DisplayName(m)
    case None => id
  }

  /** A title for an id the catalog lists is the display name of the first
      record with that id: its non-empty name, or else the id. */
  lemma DisplayNameForFound(models: seq<Model>, id: string, k: nat)
    requires k < |models| && models[k].id == id
    requires forall j :: 0 <= j < k ==> models[j].id != id
    ensures DisplayNameFor(models, id) == DisplayName(models[k])
    ensures DisplayNameFor(models, id) == if models[k].name.Some? && models[k].name.value != "" then models[k].name.value else id
  {
    var r := FindModel(models, id);
    if r.Some? {
      var i :| 0 <= i < |models| && models[i] == r.value && models[i].id == id
               && forall j :: 0 <= j < i ==> models[j].id != id;
      assert i == k;
    }
  }

  /** The provider keywords, in the order they are tried, with their labels. */
  const ProviderKeywords: seq<(string, string)> :=
    [("gpt", "OpenAI"), ("claude", "Anthropic"), ("gemini", "Google"),
     ("llama", "Meta"), ("mistral", "Mistral"), ("cohere", "Cohere")]

  const OtherProvider := "Various"

  /** The cosmetic provider label of a model id: the first keyword the id
      contains (case-sensitively) decides. */
  function GetModelProvider(modelId: string): string {
    if Contains(modelId, "gpt") then "OpenAI"
    else if Contains(modelId, "claude") then "Anthropic"
    else if Contains(modelId, "gemini") then "Google"
    else if Contains(modelId, "llama") then "Meta"
    else if Contains(modelId, "mistral") then "Mistral"
    else if Contains(modelId, "cohere") then "Cohere"
    else OtherProvider
  }

  /** Reference classifier: the label of the first entry of `table` whose
      keyword occurs in `modelId`. */
  function FirstKeywordLabel(table: seq<(string, string)>, modelId: string): string {
    if table == [] then OtherProvider
    else if Contains(modelId, table[0].0) then table[0].1
    else FirstKeywordLabel(table[1..], modelId)
  }

  /** `FirstKeywordLabel` answers with entry `k` exactly when keyword `k` is
      the first contained one, and with the fallback when none is. */
  lemma {:induction false} FirstKeywordLabelIsFirstMatch(table: seq<(string, string)>, modelId: string, k: nat)
    requires k < |table|
    requires Contains(modelId, table[k].0)
    requires forall j :: 0 <= j < k ==> !Contains(modelId, table[j].0)
    ensures FirstKeywordLabel(table, modelId) == table[k].1
  {
    if k > 0 {
      assert !Contains(modelId, table[0].0);
      FirstKeywordLabelIsFirstMatch(table[1..], modelId, k - 1);
    }
  }

  lemma {:induction false} FirstKeywordLabelNoMatch(table: seq<(string, string)>, modelId: string)
    requires forall j :: 0 <= j < |table| ==> !Contains(modelId, table[j].0)
    ensures FirstKeywordLabel(table, modelId) == OtherProvider
  {
    if table != [] {
      assert !Contains(modelId, table[0].0);
      FirstKeywordLabelNoMatch(table[1..], modelId);
    }
  }

  /** The provider label is the label of the first keyword, in the order
      gpt, claude, gemini, llama, mistral, cohere, that the id contains, and
      `Various` when it contains none. */
  lemma ProviderPriority(modelId: string)
    ensures GetModelProvider(modelId) == FirstKeywordLabel(ProviderKeywords, modelId)
    ensures forall k :: 0 <= k < |ProviderKeywords| && Contains(modelId, ProviderKeywords[k].0)
              && (forall j :: 0 <= j < k ==> !Contains(modelId, ProviderKeywords[j].0))
              ==> GetModelProvider(modelId) == ProviderKeywords[k].1
    ensures (forall k :: 0 <= k < |ProviderKeywords| ==> !Contains(modelId, ProviderKeywords[k].0))
              ==> GetModelProvider(modelId) == OtherProvider
  {
    var t := ProviderKeywords;
    assert t[1..] == [("claude", "Anthropic"), ("gemini", "Google"), ("llama", "Meta"), ("mistral", "Mistral"), ("cohere", "Cohere")];
    assert t[2..] == [("gemini", "Google"), ("llama", "Meta"), ("mistral", "Mistral"), ("cohere", "Cohere")];
    assert t[3..] == [("llama", "Meta"), ("mistral", "Mistral"), ("cohere", "Cohere")];
    assert t[4..] == [("mistral", "Mistral"), ("cohere", "Cohere")];
    assert t[5..] == [("cohere", "Cohere")];
    assert t[6..] == [];
    assert FirstKeywordLabel(t[5..], modelId) == if Contains(modelId, "cohere") then "Cohere" else OtherProvider;
    assert FirstKeywordLabel(t[4..], modelId) == if Contains(modelId, "mistral") then "Mistral" else FirstKeywordLabel(t[5..], modelId);
    assert FirstKeywordLabel(t[3..], modelId) == if Contains(modelId, "llama") then "Meta" else FirstKeywordLabel(t[4..], modelId);
    assert FirstKeywordLabel(t[2..], modelId) == if Contains(modelId, "gemini") then "Google" else FirstKeywordLabel(t[3..], modelId);
    assert FirstKeywordLabel(t[1..], modelId) == if Contains(modelId, "claude") then "Anthropic" else FirstKeywordLabel(t[2..], modelId);
    forall k | 0 <= k < |t| && Contains(modelId, t[k].0)
                && (forall j :: 0 <= j < k ==> !Contains(modelId, t[j].0))
      ensures GetModelProvider(modelId) == t[k].1
    {
      FirstKeywordLabelIsFirstMatch(t, modelId, k);
    }
    if forall k :: 0 <= k < |t| ==> !Contains(modelId, t[k].0) {
      FirstKeywordLabelNoMatch(t, modelId);
    }
  }

  /** A string that lacks the first character of `t` does not contain `t`. */
  lemma {:induction false} ContainsFirstChar(s: string, t: string)
    requires t != [] && Contains(s, t)
    ensures t[0] in s
    decreases |s|
  {
    if !(t <= s) {
      ContainsFirstChar(s[1..], t);
    }
  }

  /** An id containing both `gpt` and `claude` is labelled OpenAI. */
  lemma ProviderPrefersGpt(modelId: string)
    requires Contains(modelId, "gpt") && Contains(modelId, "claude")
    ensures GetModelProvider(modelId) == "OpenAI"
  {
  }

  /** Keywords are matched case-sensitively: an upper-case `GPT` is not
      recognised. */
  lemma ProviderIsCaseSensitive()
    ensures GetModelProvider("openai/GPT-4") == "Various"
  {
    var id := "openai/GPT-4";
    assert 'g' !in id && 'c' !in id && 'l' !in id && 'm' !in id;
    if Contains(id, "gpt") { ContainsFirstChar(id, "gpt"); }
    if Contains(id, "claude") { ContainsFirstChar(id, "claude"); }
    if Contains(id, "gemini") { ContainsFirstChar(id, "gemini"); }
    if Contains(id, "llama") { ContainsFirstChar(id, "llama"); }
    if Contains(id, "mistral") { ContainsFirstChar(id, "mistral"); }
    if Contains(id, "cohere") { ContainsFirstChar(id, "cohere"); }
  }

  /** The filter test of `filterModels` for an already lowercased term: the
      term occurs in the lowercased display name, provider label or id. */
  predicate Matches(m: Model, term: string) {
    || Contains(Lower(DisplayName(m)), term)
    || Contains(Lower(GetModelProvider(m.id)), term)
    || Contains(Lower(m.id), term)
  }

  /** `models.filter(keep)`: the kept records, in catalog order. */
  function Filter(models: seq<Model>, keep: Model -> bool): seq<Model> {
    if models == [] then []
    else (if keep(models[0]) then [models[0]] else []) + Filter(models[1..], keep)
  }

  /** The view `filterModels(searchTerm)` computes: the whole catalog for a
      blank term, otherwise the records matching the lowercased (but not
      trimmed) term. */
  function View(models: seq<Model>, searchTerm: string): seq<Model> {
    if Blank(searchTerm) then models else Filter(models, m => Matches(m, Lower(searchTerm)))
  }

  /** A record is in the filtered list exactly when it is in the catalog and
      is kept. */
  lemma {:induction false} FilterMembers(models: seq<Model>, keep: Model -> bool, m: Model)
    ensures m in Filter(models, keep) <==> m in models && keep(m)
  {
    if models != [] {
      FilterMembers(models[1..], keep, m);
      assert models == [models[0]] + models[1..];
    }
  }

  /** Filtering keeps catalog order: filtering a concatenation concatenates
      the filtered parts. */
  lemma {:induction false} FilterAppend(a: seq<Model>, b: seq<Model>, keep: Model -> bool)
    ensures Filter(a + b, keep) == Filter(a, keep) + Filter(b, keep)
  {
    if |a| == 0 {
      assert a + b == b;
    } else {
      var x, t := a[0], a[1..];
      assert a == [x] + t;
      assert a + b == [x] + (t + b);
      FilterCons(x, t, keep);
      FilterCons(x, t + b, keep);
      FilterAppend(t, b, keep);
    }
  }

  lemma FilterCons(x: Model, t: seq<Model>, keep: Model -> bool)
    ensures Filter([x] + t, keep) == (if keep(x) then [x] else []) + Filter(t, keep)
  {
    assert ([x] + t)[1..] == t;
  }

  /** Filtering never adds records: the view is at most as long as the
      catalog, and equals it when every record is kept. */
  lemma {:induction false} FilterBounds(models: seq<Model>, keep: Model -> bool)
    ensures |Filter(models, keep)| <= |models|
    ensures (forall k :: 0 <= k < |models| ==> keep(models[k])) ==> Filter(models, keep) == models
  {
    if models != [] {
      FilterBounds(models[1..], keep);
      assert models == [models[0]] + models[1..];
    }
  }

  /** The view's membership: a blank term shows every record, otherwise
      exactly the catalog records matching the lowercased term. */
  lemma ViewMembers(models: seq<Model>, searchTerm: string, m: Model)
    ensures Blank(searchTerm) ==> View(models, searchTerm) == models
    ensures !Blank(searchTerm) ==> (m in View(models, searchTerm) <==> m in models && Matches(m, Lower(searchTerm)))
  {
    if !Blank(searchTerm) {
      FilterMembers(models, m => Matches(m, Lower(searchTerm)), m);
    }
  }

  /** The search is case-insensitive in the term: a term and its lowercase
      form give the same view. */
  lemma ViewIgnoresTermCase(models: seq<Model>, searchTerm: string)
    ensures View(models, Lower(searchTerm)) == View(models, searchTerm)
  {
    LowerKeepsBlank(searchTerm);
    LowerIdempotent(searchTerm);
  }

  /** Lowercasing maps exactly the spaces to spaces. */
  lemma LowerSpace(s: string)
    ensures ' ' in Lower(s) <==> ' ' in s
  {
    if ' ' in Lower(s) {
      var i :| 0 <= i < |s| && Lower(s)[i] == ' ';
    }
    if ' ' in s {
      var i :| 0 <= i < |s| && s[i] == ' ';
      assert Lower(s)[i] == ' ';
    }
  }

  /** No provider label contains a space. */
  lemma ProviderHasNoSpace(modelId: string)
    ensures ' ' !in GetModelProvider(modelId)
  {
  }

  /** The term is lowercased but not trimmed: for a term with a leading
      space, only records whose display name or id contains a space are
      shown. */
  lemma ViewTermNotTrimmed(models: seq<Model>, term: string, m: Model)
    requires !Blank(term)
    requires m in View(models, " " + term)
    ensures ' ' in DisplayName(m) || ' ' in m.id
  {
    var t := " " + term;
    assert !Blank(t) by { var i :| 0 <= i < |term| && !IsWhitespace(term[i]); assert t[i + 1] == term[i]; }
    FilterMembers(models, m => Matches(m, Lower(t)), m);
    assert Lower(t)[0] == ' ';
    var fields := [Lower(DisplayName(m)), Lower(GetModelProvider(m.id)), Lower(m.id)];
    var f :| f in fields && Contains(f, Lower(t));
    ContainsFirstChar(f, Lower(t));
    LowerSpace(DisplayName(m));
    LowerSpace(GetModelProvider(m.id));
    LowerSpace(m.id);
    ProviderHasNoSpace(m.id);
  }
}
