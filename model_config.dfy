/** The LLM model list as both web generations manage it: `config["llm"]["models"]`
    and the extractor's own copy, with the rules of the add, delete and
    reorder handlers. Saving the configuration file is left out; the
    in-memory configuration is what later requests read. */
module ModelConfig {
  import opened Wrappers
  import opened Text
  import opened Llm

  /** Why a request is refused: status 400 or status 404. */
  datatype Refusal = BadRequest | NotFound

  /** No name occurs twice. */
  predicate NoRepeats(s: seq<string>) {
    forall i, j :: 0 <= i < j < |s| ==> s[i] != s[j]
  }

  /** `add_model`: the stripped name is appended to the configured list (an
      absent list counts as empty); a blank name or one already listed is
      refused. */
  function AddedModels(config: Option<seq<string>>, raw: string): (r: Result<seq<string>, Refusal>)
    ensures r.Ok? || r == Err(BadRequest)
    ensures r.Err? <==> IsBlank(raw) || Strip(raw) in config.GetOr([])
    ensures r.Ok? ==> |r.value| == |config.GetOr([])| + 1
                      && r.value[..|config.GetOr([])|] == config.GetOr([])
                      && r.value[|config.GetOr([])|] == Strip(raw)
  {
    BlankIffStripEmpty(raw);
    var name := Strip(raw);
    var current := config.GetOr([]);
    if name == [] || name in current then Err(BadRequest) else Ok(current + [name])
  }

  /** `delete_model`: the first occurrence of the stripped name is removed. A
      blank name is refused with 400, a missing list or an unlisted name with
      404, and removing the only model with 400. */
  function RemainingModels(config: Option<seq<string>>, raw: string): (r: Result<seq<string>, Refusal>)
    ensures IsBlank(raw) ==> r == Err(BadRequest)
    ensures !IsBlank(raw) && (config.None? || Strip(raw) !in config.value) ==> r == Err(NotFound)
    ensures !IsBlank(raw) && config.Some? && Strip(raw) in config.value && |config.value| <= 1 ==> r == Err(BadRequest)
    ensures r.Ok? <==> !IsBlank(raw) && config.Some? && Strip(raw) in config.value && |config.value| >= 2
    ensures r.Ok? ==> r.value != [] && |r.value| == |config.value| - 1
                      && multiset(r.value) == multiset(config.value) - multiset{Strip(raw)}
  {
    BlankIffStripEmpty(raw);
    var name := Strip(raw);
    if name == [] then Err(BadRequest)
    else if config.None? || name !in config.value then Err(NotFound)
    else if |config.value| <= 1 then Err(BadRequest)
    else Ok(RemoveFirst(config.value, name))
  }

  /** Appending a name that was not listed keeps the list free of repeats. */
  lemma AddKeepsNoRepeats(config: Option<seq<string>>, raw: string)
    requires NoRepeats(config.GetOr([]))
    requires AddedModels(config, raw).Ok?
    ensures NoRepeats(AddedModels(config, raw).value)
  {
    var current, r := config.GetOr([]), AddedModels(config, raw).value;
    forall i, j | 0 <= i < j < |r| ensures r[i] != r[j] {
      if j == |current| {
        assert r[i] == current[i];
      } else {
        assert r[i] == current[i] && r[j] == current[j];
      }
    }
  }

  /** Deleting keeps the order of the other models: the list is cut at the
      name's first position. */
  lemma DeleteKeepsOrder(config: Option<seq<string>>, raw: string)
    requires RemainingModels(config, raw).Ok?
    ensures var s, i := config.value, FirstIndex(config.value, Strip(raw));
            RemainingModels(config, raw).value == s[..i] + s[i + 1..]
  {
    RemoveFirstAt(config.value, Strip(raw));
  }

  /** Removing a name from the end of a list that does not otherwise hold it
      gives the list back. */
  lemma {:induction false} RemoveFirstAppended(s: seq<string>, x: string)
    requires x !in s
    ensures RemoveFirst(s + [x], x) == s
  {
    if s != [] {
      assert (s + [x])[0] == s[0] && (s + [x])[1..] == s[1..] + [x];
      RemoveFirstAppended(s[1..], x);
    }
  }

  /** Deleting a model just added, from a list that already had one, restores
      the list. */
  lemma AddThenDelete(config: Option<seq<string>>, raw: string)
    requires AddedModels(config, raw).Ok? && config.GetOr([]) != []
    ensures RemainingModels(Some(AddedModels(config, raw).value), raw) == Ok(config.GetOr([]))
  {
    var current := config.GetOr([]);
    assert AddedModels(config, raw).value == current + [Strip(raw)];
    RemoveFirstAppended(current, Strip(raw));
  }

  /** The configured list and the extractor's copy of it, changed together by
      the model handlers. */
  class ModelSettings {
    /** `config["llm"]["models"]`; `None` when `llm` or `models` is absent. */
    var configModels: Option<seq<string>>
    const extractor: LlmExtractor

    constructor (configModels: Option<seq<string>>, extractor: LlmExtractor)
      ensures this.configModels == configModels && this.extractor == extractor
    {
      this.configModels := configModels;
      this.extractor := extractor;
    }

    /** `add_model`: on success both lists become the new list. */
    method AddModel(raw: string) returns (r: Result<seq<string>, Refusal>)
      modifies this`configModels, extractor`models
      ensures r == AddedModels(old(configModels), raw)
      ensures r.Ok? ==> configModels == Some(r.value) && extractor.models == r.value
      ensures r.Err? ==> configModels == old(configModels) && extractor.models == old(extractor.models)
    {
      r := AddedModels(configModels, raw);
      if r.Ok? {
        configModels := Some(r.value);
        extractor.models := r.value;
      }
    }

    /** `delete_model`: on success both lists become the shortened list. */
    method DeleteModel(raw: string) returns (r: Result<seq<string>, Refusal>)
      modifies this`configModels, extractor`models
      ensures r == RemainingModels(old(configModels), raw)
      ensures r.Ok? ==> configModels == Some(r.value) && extractor.models == r.value
      ensures r.Err? ==> configModels == old(configModels) && extractor.models == old(extractor.models)
    {
      r := RemainingModels(configModels, raw);
      if r.Ok? {
        configModels := Some(r.value);
        extractor.models := r.value;
      }
    }

    /** `reorder_models`: an empty (or absent) list is refused with 400;
        otherwise both lists become the given one, as given. */
    method ReorderModels(given: seq<string>) returns (r: Result<seq<string>, Refusal>)
      modifies this`configModels, extractor`models
      ensures given == [] <==> r == Err(BadRequest)
      ensures given != [] ==> r == Ok(given) && configModels == Some(given) && extractor.models == given
      ensures given == [] ==> configModels == old(configModels) && extractor.models == old(extractor.models)
    {
      if given == [] {
        return Err(BadRequest);
      }
      configModels := Some(given);
      extractor.models := given;
      r := Ok(given);
    }
  }
}
