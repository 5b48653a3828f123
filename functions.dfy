/** The function registry of `src/functions.rs`: providers (external commands)
    and function specifications, the merge of a provider's self-reported
    specification with its configuration override, provider lookup and
    calling, and the compact-or-passthrough output normaliser. */
module Functions {
  import opened Wrappers
  import opened Iter
  import opened Json
  import opened Text
  import opened ChatTypes

  /** `aot::ChatCompletionFunctions`: a function specification. In the
      configuration the same record is an override of a provider's own. */
  datatype FunctionSpec = FunctionSpec(name: string, description: Option<string>, parameters: Option<Json>)

  /** A registered external command. */
  datatype Provider = Provider(name: string, command: string, args: seq<string>)

  /** The registry: the `function` vector (overrides, then merged
      specifications) and the `provider` vector. */
  datatype Functions = Functions(functions: seq<FunctionSpec>, providers: seq<Provider>)

  datatype Error =
      /** The subprocess could not be run or did not succeed (duct's `read`). */
    | CommandFailed(message: string)
      /** The specification output is not a `ChatCompletionFunctions` JSON object. */
    | InvalidSpecification(message: string)
      /** No provider has the requested name ("getting function provider"). */
    | ProviderNotFound

  /** Everything outside the process that the registry consults, as
      uninterpreted functions. */
  datatype Environment = Environment(
    // Standard output of `command args... specification`, or why it failed.
    specificationOutput: Provider -> Result<string, string>,
    // Standard output of `command args...` fed the arguments on standard input.
    callOutput: (Provider, string) -> Result<string, string>,
    // `serde_json::from_str::<ChatCompletionFunctions>`.
    decodeSpecification: string -> Result<FunctionSpec, string>,
    // `serde_json::from_str::<Value>` and `serde_json::to_string`.
    codec: Codec)

  /** The codec laws of serde_json: serialised text parses back to the same
      value and has no surrounding whitespace. */
  ghost predicate Lawful(codec: Codec) {
    forall v :: codec.serialize(v).Some? ==>
      codec.parse(codec.serialize(v).value) == Some(v) &&
      Trim(codec.serialize(v).value) == codec.serialize(v).value
  }

  /** `try_compact_json`: trim, then re-serialise compactly if the trimmed text
      is JSON, else return the trimmed text. */
  function TryCompactJson(codec: Codec, maybeJson: string): (r: string)
    ensures codec.parse(Trim(maybeJson)).None? ==> r == Trim(maybeJson)
    ensures (codec.parse(Trim(maybeJson)).Some? &&
      codec.serialize(codec.parse(Trim(maybeJson)).value).None?) ==> r == Trim(maybeJson)
    ensures (codec.parse(Trim(maybeJson)).Some? &&
      codec.serialize(codec.parse(Trim(maybeJson)).value).Some?) ==>
        r == codec.serialize(codec.parse(Trim(maybeJson)).value).value
    ensures r != Trim(maybeJson) ==>
      codec.parse(Trim(maybeJson)).Some? &&
      codec.serialize(codec.parse(Trim(maybeJson)).value) == Some(r)
  {
    var trimmed := Trim(maybeJson);
    match codec.parse(trimmed)
    case None => trimmed
    case Some(value) =>
      match codec.serialize(value)
      case None => trimmed
      case Some(compact) => compact
  }

  /** The normaliser only sees the trimmed input. */
  lemma TryCompactJsonIgnoresSurroundingWhitespace(codec: Codec, w1: string, s: string, w2: string)
    requires AllWhitespace(w1) && AllWhitespace(w2)
    ensures TryCompactJson(codec, w1 + s + w2) == TryCompactJson(codec, s)
  {
    TrimIgnoresSurroundingWhitespace(w1, s, w2);
  }

  /** Under the codec laws, normalising twice is normalising once. */
  lemma TryCompactJsonIdempotent(codec: Codec, s: string)
    requires Lawful(codec)
    ensures TryCompactJson(codec, TryCompactJson(codec, s)) == TryCompactJson(codec, s)
  {
    TrimIdempotent(s);
  }

  /** `Provider::specification`: run the provider for its specification, decode
      it and force its name to the registry name. */
  function Specification(provider: Provider, env: Environment): (r: Result<FunctionSpec, Error>)
    ensures r.Ok? <==>
      env.specificationOutput(provider).Ok? &&
      env.decodeSpecification(env.specificationOutput(provider).value).Ok?
    ensures r.Ok? ==>
      r.value == env.decodeSpecification(env.specificationOutput(provider).value).value.(name := provider.name)
    ensures r.Ok? ==> r.value.name == provider.name
    ensures env.specificationOutput(provider).Err? ==>
      r == Err(CommandFailed(env.specificationOutput(provider).error))
    ensures (env.specificationOutput(provider).Ok? &&
      env.decodeSpecification(env.specificationOutput(provider).value).Err?) ==>
        r == Err(InvalidSpecification(env.decodeSpecification(env.specificationOutput(provider).value).error))
  {
    match env.specificationOutput(provider)
    case Err(message) => Err(CommandFailed(message))
    case Ok(output) =>
      match env.decodeSpecification(output)
      case Err(message) => Err(InvalidSpecification(message))
      case Ok(specification) =>
        if specification.name != provider.name then Ok(specification.(name := provider.name))
        else Ok(specification)
  }

  /** `function.iter().position(|function| function.name == name)`. */
  function Position(functions: seq<FunctionSpec>, name: string): (r: Option<nat>)
    ensures r.Some? ==> r.value < |functions| && functions[r.value].name == name
    ensures r.Some? ==> forall j :: 0 <= j < r.value ==> functions[j].name != name
    ensures r.None? <==> forall j :: 0 <= j < |functions| ==> functions[j].name != name
  {
    FirstIndex(functions, (f: FunctionSpec) => f.name == name)
  }

  /** `Vec::swap_remove`: the element at `i` is removed and the last element
      takes its place. */
  function SwapRemove<T>(s: seq<T>, i: nat): (r: seq<T>)
    requires i < |s|
    ensures |r| == |s| - 1
    ensures multiset(r) + multiset{s[i]} == multiset(s)
    ensures i < |r| ==> r[i] == s[|s| - 1]
    ensures forall k :: 0 <= k < |r| && k != i ==> r[k] == s[k]
  {
    if i == |s| - 1 then
      assert s == s[..i] + [s[i]];
      s[..i]
    else
      var r := s[..i] + [s[|s| - 1]] + s[i + 1..|s| - 1];
      assert s == s[..i] + [s[i]] + s[i + 1..|s| - 1] + [s[|s| - 1]];
      r
  }

  /** The merge of a provider's specification with its override: the override's
      description wins; parameters are merge-patched when both sides have them
      and otherwise taken from whichever side has them. The name stays the
      provider's. */
  function Merge(reported: FunctionSpec, override: FunctionSpec): (r: FunctionSpec)
    ensures r.name == reported.name
    ensures override.description.Some? ==> r.description == override.description
    ensures override.description.None? ==> r.description == reported.description
    ensures reported.parameters.Some? && override.parameters.Some? ==>
      r.parameters == Some(MergePatch(reported.parameters.value, override.parameters.value))
    ensures override.parameters.None? ==> r.parameters == reported.parameters
    ensures reported.parameters.None? ==> r.parameters == override.parameters
  {
    var description := override.description.Or(reported.description);
    var parameters :=
      if reported.parameters.Some? && override.parameters.Some? then
        Some(MergePatch(reported.parameters.value, override.parameters.value))
      else
        override.parameters.Or(reported.parameters);
    FunctionSpec(reported.name, description, parameters)
  }

  /** The names of a sequence of specifications. */
  function Names(functions: seq<FunctionSpec>): set<string> {
    set f | f in functions :: f.name
  }

  /** The names of a sequence of providers. */
  function ProviderNames(providers: seq<Provider>): set<string> {
    set p | p in providers :: p.name
  }

  lemma ProviderNamesCons(providers: seq<Provider>)
    requires providers != []
    ensures ProviderNames(providers) == {providers[0].name} + ProviderNames(providers[1..])
  {
    assert providers == [providers[0]] + providers[1..];
  }

  /** One iteration of the loop in `Functions::load`: the first entry named
      after the provider, if any, is swap-removed and merged into the
      provider's specification, which is then pushed. */
  function LoadStep(functions: seq<FunctionSpec>, spec: FunctionSpec): (r: seq<FunctionSpec>)
    ensures |r| > 0 && r[|r| - 1].name == spec.name
  {
    match Position(functions, spec.name)
    case None => functions + [spec]
    case Some(i) => SwapRemove(functions, i) + [Merge(spec, functions[i])]
  }

  /** Without an entry of the provider's name, the provider's specification is
      appended as it is; the vector grows by one. */
  lemma LoadStepNoMatch(functions: seq<FunctionSpec>, spec: FunctionSpec)
    requires forall j :: 0 <= j < |functions| ==> functions[j].name != spec.name
    ensures LoadStep(functions, spec) == functions + [spec]
    ensures |LoadStep(functions, spec)| == |functions| + 1
  {
  }

  /** With one, the first such entry is consumed: it is merged into the
      pushed specification, the other entries stay (as a multiset) and the
      length is unchanged. */
  lemma LoadStepMatch(functions: seq<FunctionSpec>, spec: FunctionSpec, i: nat)
    requires i < |functions| && functions[i].name == spec.name
    requires forall j :: 0 <= j < i ==> functions[j].name != spec.name
    ensures var r := LoadStep(functions, spec);
      && |r| == |functions|
      && r[|r| - 1] == Merge(spec, functions[i])
      && multiset(r[..|r| - 1]) + multiset{functions[i]} == multiset(functions)
  {
    assert Position(functions, spec.name) == Some(i);
    var rest := SwapRemove(functions, i);
    var r := rest + [Merge(spec, functions[i])];
    assert r[..|r| - 1] == rest;
  }

  /** Each iteration grows the vector by zero entries on a match and by one
      otherwise. */
  lemma LoadStepLength(functions: seq<FunctionSpec>, spec: FunctionSpec)
    ensures |LoadStep(functions, spec)| == |functions| + (if spec.name in Names(functions) then 0 else 1)
  {
    match Position(functions, spec.name)
    case None => assert spec.name !in Names(functions);
    case Some(i) => assert functions[i] in functions;
  }

  /** Each iteration removes one entry of the provider's name at most and adds
      one, so every other entry is counted as often afterwards. */
  lemma LoadStepKeepsOthers(functions: seq<FunctionSpec>, spec: FunctionSpec)
    ensures forall x: FunctionSpec :: x.name != spec.name ==>
      multiset(LoadStep(functions, spec))[x] == multiset(functions)[x]
  {
    match Position(functions, spec.name)
    case None =>
      assert multiset(functions + [spec]) == multiset(functions) + multiset{spec};
    case Some(i) =>
      var rest := SwapRemove(functions, i);
      var merged := Merge(spec, functions[i]);
      assert LoadStep(functions, spec) == rest + [merged];
      assert multiset(rest + [merged]) == multiset(rest) + multiset{merged};
      forall x: FunctionSpec | x.name != spec.name
        ensures multiset(LoadStep(functions, spec))[x] == multiset(functions)[x]
      {
        assert x != merged && x != functions[i];
      }
  }

  /** Each iteration adds the provider's name to the names present and loses
      none. */
  lemma LoadStepNames(functions: seq<FunctionSpec>, spec: FunctionSpec)
    ensures Names(LoadStep(functions, spec)) == Names(functions) + {spec.name}
  {
    match Position(functions, spec.name)
    case None =>
      NamesAppend(functions, spec);
    case Some(i) =>
      var rest := SwapRemove(functions, i);
      var merged := Merge(spec, functions[i]);
      assert LoadStep(functions, spec) == rest + [merged];
      NamesAppend(rest, merged);
      NamesOfMultiset(rest, functions[i], functions);
  }

  lemma NamesAppend(functions: seq<FunctionSpec>, f: FunctionSpec)
    ensures Names(functions + [f]) == Names(functions) + {f.name}
  {
    assert forall g :: g in functions + [f] <==> g in functions || g == f;
  }

  /** Sequences with the same entries, counted as multisets, have the same
      names. */
  lemma NamesOfMultiset(a: seq<FunctionSpec>, x: FunctionSpec, b: seq<FunctionSpec>)
    requires multiset(a) + multiset{x} == multiset(b)
    ensures Names(b) == Names(a) + {x.name}
  {
    forall g ensures g in b <==> g in a || g == x {
      assert g in b <==> g in multiset(b);
      assert g in a <==> g in multiset(a);
    }
  }

  /** The loop of `Functions::load` from a given vector over the remaining
      providers: the first provider whose specification fails aborts the
      load with its error. */
  function LoadFrom(functions: seq<FunctionSpec>, providers: seq<Provider>, env: Environment):
    (r: Result<seq<FunctionSpec>, Error>)
    ensures r.Err? ==> exists j :: 0 <= j < |providers| && Specification(providers[j], env) == Err(r.error)
    decreases |providers|
  {
    if providers == [] then Ok(functions)
    else match Specification(providers[0], env)
      case Err(e) => Err(e)
      case Ok(spec) =>
        var tail := providers[1..];
        var r := LoadFrom(LoadStep(functions, spec), tail, env);
        assert r.Err? ==> exists j :: 0 <= j < |tail| && Specification(tail[j], env) == Err(r.error);
        assert forall j :: 0 <= j < |tail| ==> tail[j] == providers[j + 1];
        r
  }

  /** When every provider's specification can be obtained, the load
      succeeds. */
  lemma {:induction false} LoadFromSucceeds(functions: seq<FunctionSpec>, providers: seq<Provider>, env: Environment)
    requires forall j :: 0 <= j < |providers| ==> Specification(providers[j], env).Ok?
    ensures LoadFrom(functions, providers, env).Ok?
    decreases |providers|
  {
    if providers != [] {
      var spec := Specification(providers[0], env).value;
      var tail := providers[1..];
      assert forall j :: 0 <= j < |tail| ==> tail[j] == providers[j + 1];
      LoadFromSucceeds(LoadStep(functions, spec), tail, env);
    }
  }

  /** Otherwise the load fails, with the error of the first provider whose
      specification fails. */
  lemma {:induction false} LoadFromFirstError(functions: seq<FunctionSpec>, providers: seq<Provider>, env: Environment, j: nat)
    requires j < |providers| && Specification(providers[j], env).Err?
    requires forall i :: 0 <= i < j ==> Specification(providers[i], env).Ok?
    ensures LoadFrom(functions, providers, env) == Err(Specification(providers[j], env).error)
    decreases j
  {
    if j > 0 {
      var spec := Specification(providers[0], env).value;
      var tail := providers[1..];
      assert tail[j - 1] == providers[j];
      assert forall i :: 0 <= i < j - 1 ==> tail[i] == providers[i + 1];
      LoadFromFirstError(LoadStep(functions, spec), tail, env, j - 1);
    }
  }

  /** Each iteration grows the vector by zero or one entries. */
  lemma {:induction false} LoadFromLength(functions: seq<FunctionSpec>, providers: seq<Provider>, env: Environment)
    requires LoadFrom(functions, providers, env).Ok?
    ensures |functions| <= |LoadFrom(functions, providers, env).value| <= |functions| + |providers|
    decreases |providers|
  {
    if providers != [] {
      var spec := Specification(providers[0], env).value;
      LoadStepLength(functions, spec);
      LoadFromLength(LoadStep(functions, spec), providers[1..], env);
    }
  }

  /** After the load every provider has a specification of its name, and no
      other name has appeared. */
  lemma {:induction false} LoadFromNames(functions: seq<FunctionSpec>, providers: seq<Provider>, env: Environment)
    requires LoadFrom(functions, providers, env).Ok?
    ensures Names(LoadFrom(functions, providers, env).value) == Names(functions) + ProviderNames(providers)
    decreases |providers|
  {
    if providers != [] {
      var spec := Specification(providers[0], env).value;
      LoadStepNames(functions, spec);
      LoadFromNames(LoadStep(functions, spec), providers[1..], env);
      ProviderNamesCons(providers);
    }
  }

  /** Entries named after no provider come out of the load exactly as they
      went in, counted as a multiset. */
  lemma {:induction false} LoadFromKeepsUnmatched(functions: seq<FunctionSpec>, providers: seq<Provider>, env: Environment)
    requires LoadFrom(functions, providers, env).Ok?
    ensures forall x: FunctionSpec :: x.name !in ProviderNames(providers) ==>
      multiset(LoadFrom(functions, providers, env).value)[x] == multiset(functions)[x]
    decreases |providers|
  {
    if providers != [] {
      var spec := Specification(providers[0], env).value;
      var tail := providers[1..];
      LoadStepKeepsOthers(functions, spec);
      LoadFromKeepsUnmatched(LoadStep(functions, spec), tail, env);
      ProviderNamesCons(providers);
    }
  }

  /** The last entry of a load over at least one provider is the last
      provider's specification. */
  lemma {:induction false} LoadFromLast(functions: seq<FunctionSpec>, providers: seq<Provider>, env: Environment)
    requires providers != [] && LoadFrom(functions, providers, env).Ok?
    ensures LastName(LoadFrom(functions, providers, env).value) == Some(providers[|providers| - 1].name)
    decreases |providers|
  {
    LoadFromNext(functions, providers, env);
    var spec := Specification(providers[0], env).value;
    var next := LoadStep(functions, spec);
    var tail := providers[1..];
    if tail == [] {
      LoadFromOne(functions, providers, env);
      assert LastName(next) == Some(spec.name);
    } else {
      assert tail[|tail| - 1] == providers[|providers| - 1];
      LoadFromLast(next, tail, env);
    }
  }

  /** The name of the last entry, if any. */
  function LastName(functions: seq<FunctionSpec>): Option<string> {
    if functions == [] then None else Some(functions[|functions| - 1].name)
  }

  /** A load over one provider is one step. */
  lemma LoadFromOne(functions: seq<FunctionSpec>, providers: seq<Provider>, env: Environment)
    requires |providers| == 1 && LoadFrom(functions, providers, env).Ok?
    ensures Specification(providers[0], env).Ok?
    ensures LoadFrom(functions, providers, env) == Ok(LoadStep(functions, Specification(providers[0], env).value))
  {
    LoadFromNext(functions, providers, env);
    assert providers[1..] == [];
  }

  /** One step of the fold: a successful load has obtained the first
      provider's specification and continues from `LoadStep`. */
  lemma LoadFromNext(functions: seq<FunctionSpec>, providers: seq<Provider>, env: Environment)
    requires providers != [] && LoadFrom(functions, providers, env).Ok?
    ensures Specification(providers[0], env).Ok?
    ensures LoadFrom(functions, providers, env) ==
      LoadFrom(LoadStep(functions, Specification(providers[0], env).value), providers[1..], env)
  {
  }

  /** `Functions::load` after the configuration has been read: for each
      provider in order, fetch its specification, merge in the matching
      override and push the result onto the `function` vector. */
  method Load(config: Functions, env: Environment) returns (r: Result<Functions, Error>)
    ensures r.Err? <==> LoadFrom(config.functions, config.providers, env).Err?
    ensures r.Err? ==> r.error == LoadFrom(config.functions, config.providers, env).error
    ensures r.Ok? ==> r.value == Functions(LoadFrom(config.functions, config.providers, env).value, config.providers)
    ensures r.Ok? ==> Names(r.value.functions) == Names(config.functions) + ProviderNames(config.providers)
    ensures r.Ok? ==> forall x: FunctionSpec :: x.name !in ProviderNames(config.providers) ==>
      multiset(r.value.functions)[x] == multiset(config.functions)[x]
  {
    var specs := config.functions;
    var provider := config.providers;
    for i := 0 to |provider|
      invariant LoadFrom(specs, provider[i..], env) == LoadFrom(config.functions, provider, env)
    {
      assert provider[i..][0] == provider[i] && provider[i..][1..] == provider[i + 1..];
      var spec :- Specification(provider[i], env);
      ghost var before := specs;
      var actualName := spec.name;
      var actualDescription := spec.description;
      var actualParameters := spec.parameters;
      var index := Position(specs, actualName);
      if index.Some? {
        var removed: FunctionSpec := specs[index.value];
        specs := SwapRemove(specs, index.value);
        actualDescription := removed.description.Or(actualDescription);
        if actualParameters.Some? && removed.parameters.Some? {
          actualParameters := Some(MergePatch(actualParameters.value, removed.parameters.value));
        } else {
          actualParameters := removed.parameters.Or(actualParameters);
        }
      }
      specs := specs + [FunctionSpec(actualName, actualDescription, actualParameters)];
      assert specs == LoadStep(before, spec);
    }
    assert provider[|provider|..] == [];
    LoadFromNames(config.functions, provider, env);
    LoadFromKeepsUnmatched(config.functions, provider, env);
    r := Ok(Functions(specs, provider));
  }

  /** `Functions::prune`: no selection is made yet; the registry is returned
      unchanged whatever the messages. */
  function Prune(registry: Functions, messages: seq<Message>): (r: Result<Functions, Error>)
    ensures r == Ok(registry)
  {
    Ok(registry)
  }

  /** `Functions::is_empty`: whether there are no providers; overrides do not
      count. */
  function IsEmpty(registry: Functions): (r: bool)
    ensures r <==> registry.providers == []
  {
    |registry.providers| == 0
  }

  /** A registry with at least one provider offers at least one specification
      once loaded. */
  lemma LoadedNonEmpty(config: Functions, env: Environment)
    requires LoadFrom(config.functions, config.providers, env).Ok?
    ensures !IsEmpty(config) ==> |LoadFrom(config.functions, config.providers, env).value| > 0
  {
    if config.providers != [] {
      LoadFromLast(config.functions, config.providers, env);
    }
  }

  /** `self.provider.iter().find(|provider| provider.name == name)`, as an
      index. */
  function FindProvider(providers: seq<Provider>, name: string): (r: Option<nat>)
    ensures r.Some? ==> r.value < |providers| && providers[r.value].name == name
    ensures r.Some? ==> forall j :: 0 <= j < r.value ==> providers[j].name != name
    ensures r.None? <==> forall j :: 0 <= j < |providers| ==> providers[j].name != name
  {
    FirstIndex(providers, (p: Provider) => p.name == name)
  }

  /** `Provider::call`: run the command with the arguments on standard input
      and normalise what it prints. */
  function ProviderCall(provider: Provider, arguments: string, env: Environment): (r: Result<string, Error>)
    ensures r.Ok? <==> env.callOutput(provider, arguments).Ok?
    ensures r.Ok? ==> r.value == TryCompactJson(env.codec, env.callOutput(provider, arguments).value)
    ensures r.Err? ==> r.error == CommandFailed(env.callOutput(provider, arguments).error)
  {
    match env.callOutput(provider, arguments)
    case Err(message) => Err(CommandFailed(message))
    case Ok(content) => Ok(TryCompactJson(env.codec, content))
  }

  /** `Functions::call`: dispatch to the first provider of that name, or fail
      when there is none. */
  function Call(registry: Functions, name: string, arguments: string, env: Environment): (r: Result<string, Error>)
    ensures r == Err(ProviderNotFound) <==>
      forall j :: 0 <= j < |registry.providers| ==> registry.providers[j].name != name
    ensures forall i :: (0 <= i < |registry.providers| && registry.providers[i].name == name &&
      (forall j :: 0 <= j < i ==> registry.providers[j].name != name)) ==>
        r == ProviderCall(registry.providers[i], arguments, env)
  {
    match FindProvider(registry.providers, name)
    case None => Err(ProviderNotFound)
    case Some(i) =>
      var r := ProviderCall(registry.providers[i], arguments, env);
      assert r != Err(ProviderNotFound);
      r
  }
}
