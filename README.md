# ellie: function registry and first request, modelled in Dafny

ellie sends a user's text to a chat-completion service. It can offer the model
"functions": external commands called providers. This project models two pieces
of that program and proves properties about them.

- **The function registry** (`src/functions.rs`). A registry holds providers and
  function specifications. A provider is a command with arguments. A
  specification has a name, an optional description and optional JSON-schema
  parameters. Loading asks every provider, in order, for its own specification.
  The provider's registry name always replaces whatever name the provider
  reports. The first entry with that name in the vector as it then stands
  (earlier swap-removes reorder it) is an override: it is swap-removed from the
  vector and merged in. Its description wins when it has one; its parameters
  are merge-patched into the provider's (section 2 of RFC 7386) when both
  sides have parameters, and otherwise the side that has them wins. The merged
  specification is then pushed. The registry can also look up a provider
  by name and call it, normalising the output with "trim, then compact the
  JSON if it is JSON". `prune` returns the registry unchanged, and `is_empty`
  asks whether there are no providers.
- **The first request** (`src/main.rs`). The request holds one user message
  containing the input. Its model is the first of the four models, in price
  order, that still has a positive completion-token budget for that message.
  When no model has one, the program panics.

Modules: `Wrappers` (Option, Result), `Iter` (first element satisfying a
predicate), `Json` (values, merge-patch), `Text` (`str::trim`), `ChatTypes`
(messages), `Functions` (`src/functions.rs`), `ChatRequest` (`src/main.rs`).

What the program gets from outside becomes a parameter with no fixed meaning:
- the output of running a provider's command, for its specification or for a
  call (`Functions.Environment`);
- serde_json's parsing and serialising (`Json.Codec` and
  `Environment.decodeSpecification`);
- tiktoken's token budget (`ChatRequest.Budget`).

The idempotence of the normaliser is proved only for codecs that obey two
laws (`Functions.Lawful`). First, serialised text parses back to the same
value. Second, serialised text has no whitespace around it.

`Functions.Load` is a method. Like the source, it updates a local vector step
by step: swap-remove, then push. It is proved equal to the fold
`Functions.LoadFrom`, and the lemmas about the whole load are stated about that
fold.

Facts about the code that the model keeps:
- loading neither sorts nor deduplicates names (a TODO at
  src/functions.rs:45);
- a later provider with an earlier provider's name consumes the first entry of
  that name in the vector as it then stands, which may be a remaining override
  or a specification an earlier provider pushed;
- one provider whose specification fails makes the whole load fail (the `?`
  at src/functions.rs:59);
- the first model with a completion budget above 0 is chosen
  (src/main.rs:14-18);
- a call captures the command's standard output only. duct's `read` turns a
  non-zero exit status into an error, which the model reports as
  `CommandFailed`.

## Model

| member | source | states |
|---|---|---|
| `Iter.FirstIndex` | src/functions.rs:61-63 | `Iterator::position`: the index found holds the first element satisfying the predicate; none is found exactly when no element satisfies it |
| `Json.MergePatch` | src/functions.rs:72-75 | a non-object patch replaces the target; an object patch gives an object whose keys are the patch's non-null keys plus the target's keys the patch does not mention; a null member deletes its key; target members the patch does not mention are unchanged |
| `Json.MergePatchMember` | src/functions.rs:75 | a non-null patch member is merged recursively into the target's member of that name, or into `null` when the target has none |
| `Json.MergePatchIdempotent` | src/functions.rs:75 | applying the same patch twice gives the same value as applying it once |
| `Json.MergePatchExample` | src/functions.rs:75 | `{"a":1,"b":2}` patched by `{"b":null,"c":3}` is `{"a":1,"c":3}` |
| `Text.WhiteSpaceAscii` | src/functions.rs:10 | `char::is_whitespace` below U+0100: tab, line feed, vertical tab, form feed, carriage return and space below U+0080, then U+0085 and U+00A0; no other character there |
| `Text.Trim` | src/functions.rs:10 | `str::trim` gives a result no longer than its input that neither starts nor ends with a whitespace character |
| `Text.TrimMatches` | src/functions.rs:10 | the result is no longer than the input and neither starts nor ends with a matching character |
| `Text.TrimMatchesStrips` | src/functions.rs:10 | the result is an infix of the input with only matching characters before and after it |
| `Text.TrimMatchesUnique` | src/functions.rs:10 | any infix with only matching characters outside it and a non-matching character at either end is the trimmed result, so the two contracts above determine it |
| `Text.TrimMatchesInfix` | src/functions.rs:10 | a string trims like any infix of it when everything outside that infix matches |
| `Text.TrimMatchesIgnoresPadding` | src/functions.rs:10 | padding with matching characters on both sides does not change the trimmed result |
| `Text.TrimIgnoresSurroundingWhitespace` | src/functions.rs:10 | `str::trim` of whitespace + s + whitespace equals `str::trim` of s |
| `Text.TrimIdempotent` | src/functions.rs:10 | trimming a trimmed string changes nothing |
| `Functions.TryCompactJson` | src/functions.rs:9-14 | when the trimmed input parses and its value serialises, the result is that serialisation; when it does not parse, or its value does not serialise, the result is exactly the trimmed input |
| `Functions.TryCompactJsonIgnoresSurroundingWhitespace` | src/functions.rs:10-13 | inputs that differ only in surrounding whitespace give equal results |
| `Functions.TryCompactJsonIdempotent` | src/functions.rs:9-14 | for a lawful codec, normalising an already normalised text changes nothing |
| `Functions.Specification` | src/functions.rs:134-151 | succeeds exactly when the command succeeds and its output decodes; the result is the decoded specification with its name replaced by the provider's registry name, description and parameters untouched; a command failure is `CommandFailed` and a decode failure `InvalidSpecification`, each with its message |
| `Functions.Position` | src/functions.rs:61-63 | the index found is the first entry with the given name; none is found exactly when no entry has that name |
| `Functions.SwapRemove` | src/functions.rs:69 | one element fewer; the removed element leaves the multiset; the last element takes the removed one's place; every other index is unchanged |
| `Functions.Merge` | src/functions.rs:65-88 | the name stays the provider's; the override's description wins when present, else the provider's is kept; parameters are merge-patched when both sides have them, else they come from whichever side has them, and are absent when neither has them |
| `Functions.LoadStep` | src/functions.rs:61-90 | after one iteration the last entry is named after the provider |
| `Functions.LoadStepNoMatch` | src/functions.rs:61-90 | without an entry of the provider's name, the provider's specification is appended unchanged and the vector grows by one |
| `Functions.LoadStepMatch` | src/functions.rs:61-90 | with one, the first such entry is consumed and merged into the pushed specification; the other entries are kept as a multiset; the length is unchanged |
| `Functions.LoadStepLength` | src/functions.rs:61-90 | one iteration grows the vector by 0 on a match and by 1 otherwise |
| `Functions.LoadStepKeepsOthers` | src/functions.rs:61-90 | one iteration leaves the count of every entry not named after the provider unchanged |
| `Functions.LoadStepNames` | src/functions.rs:61-90 | one iteration adds the provider's name to the names present and removes none |
| `Functions.LoadFrom` | src/functions.rs:54-91 | the loop over the providers as a fold; when it fails, its error is the specification error of one of the providers |
| `Functions.LoadFromSucceeds` | src/functions.rs:54-59 | when every provider's specification can be obtained, the load succeeds |
| `Functions.LoadFromFirstError` | src/functions.rs:54-59 | otherwise the load fails with the error of the first provider whose specification fails |
| `Functions.LoadFromLength` | src/functions.rs:54-91 | the loaded vector is at least as long as the overrides and at most overrides plus providers long |
| `Functions.LoadFromNames` | src/functions.rs:54-91 | the names after the load are exactly the override names plus every provider's name |
| `Functions.LoadFromKeepsUnmatched` | src/functions.rs:54-91 | entries named after no provider are kept, counted as a multiset |
| `Functions.LoadFromLast` | src/functions.rs:54-91 | after a load over at least one provider, the last entry carries the last provider's name |
| `Functions.LoadFromNext` | src/functions.rs:54-59 | a successful load obtained the first provider's specification and went on from one loop iteration over it |
| `Functions.LoadFromOne` | src/functions.rs:54-91 | a successful load over one provider is that provider's single loop iteration |
| `Functions.Load` | src/functions.rs:37-94 | the loop over providers, with swap-remove, merge and push on a local vector, computes the fold `LoadFrom`; it fails exactly when the fold does; on success the providers are kept, every provider name is present, and unmatched overrides are kept as a multiset |
| `Functions.Prune` | src/functions.rs:97-105 | returns the registry unchanged, whatever the messages |
| `Functions.IsEmpty` | src/functions.rs:108-110 | true exactly when there are no providers, whatever the overrides |
| `Functions.LoadedNonEmpty` | src/functions.rs:54-91 | a loaded registry with at least one provider offers at least one specification |
| `Functions.FindProvider` | src/functions.rs:114-117 | the index found is the first provider with the requested name; none is found exactly when no provider has that name |
| `Functions.ProviderCall` | src/functions.rs:124-131 | succeeds exactly when the command does, with the command's output passed through `TryCompactJson`; a failure is reported as `CommandFailed` |
| `Functions.Call` | src/functions.rs:113-119 | fails with `ProviderNotFound` exactly when no provider has the name; otherwise calls the first provider that has it |
| `ChatRequest.ModelIndex` | src/main.rs:14-18 | the index found is that of the first model, in price order, with a budget above 0; none is found exactly when every model's budget is 0 or less |
| `ChatRequest.ChooseModel` | src/main.rs:2-21 | a returned model is one of the four models and has a budget above 0, and every cheaper model has a budget of 0 or less; no model is returned exactly when every model's budget is 0 or less |
| `ChatRequest.ChooseModelMonotone` | src/main.rs:14-18 | stated on `ModelIndex`: when a conversation leaves every model no more tokens than another, and some model fits it, some model also fits the other, at the same position in price order or a cheaper one |
| `ChatRequest.RetrieveMessages` | src/main.rs:41-55 | exactly one message, with role User, content equal to the untrimmed input, and no name or function call |
| `ChatRequest.CreateRequest` | src/main.rs:24-38 | succeeds exactly when some model has a positive budget for the single user message; the messages are those of `RetrieveMessages` and the model is the one `ChooseModel` picks; otherwise it fails with `NoModelAvailable` (the panic) |
| `ChatRequest.CreateRequestCheapest` | src/main.rs:28-34 | the request's model is the cheapest with a positive budget for the one user message holding the input |

## Left out

- Reading `functions.toml` and TOML decoding (src/functions.rs:39-43): these are file I/O and a foreign parser. `Functions.Load` starts from the decoded configuration.
- Running subprocesses with duct (src/functions.rs:127-129, 135-142): the output or failure of each run is an `Environment` parameter. So are duct's trimming of trailing newlines and its treatment of a non-zero exit.
- serde_json, both for `Value` and for `ChatCompletionFunctions` (src/functions.rs:11-12, 144): these are parameters, not a JSON parser. JSON numbers are integers, and objects are unordered maps.
- json_patch::merge changes the target in place through a mutable reference. The model computes the patched value and assigns it back (`actualParameters := Some(MergePatch(...))`). The target is owned by one iteration, so nothing else can observe the difference.
- `impl From<Functions> for Vec<ChatCompletionFunctions>` (src/functions.rs:28-33) is a field projection, `registry.functions` in the model, and nothing in the core calls it.
- The warning logged when a provider reports a different name (src/functions.rs:146).
- `ChatCompletionFunctionsArgs::build` (src/functions.rs:90): it always has a name here, so it cannot fail, and the model builds the record directly.
- `ChatRequest.ChooseModel`: does not model the panic of tiktoken's `.expect` (src/main.rs:16). The budget is a total function. The `anyhow::Result` wrapper is dropped because it is always `Ok`.
- `ChatRequest.RetrieveMessages`: the message builder's error path (src/main.rs:51) is not modelled, because role and content are always set.
- The temperature 0.0 of the request (src/main.rs:27) is a float. The builder error at src/main.rs:35 and printing the request in `main` (src/main.rs:57-62) are left out too.
- get_current_weather.py is a test fixture that passes its arguments to subprocesses. It has no logic to verify.
