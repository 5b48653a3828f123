/** Building the first chat-completion request of `src/main.rs`: one user
    message holding the input, sent to the cheapest model that still has
    completion tokens left for it. */
module ChatRequest {
  import opened Wrappers
  import opened Iter
  import opened ChatTypes

  /** `MODELS`: the available models, cheapest first. */
  const Models: seq<string> := ["gpt-3.5-turbo", "gpt-3.5-turbo-16k", "gpt-4", "gpt-4-32k"]

  /** `tiktoken_rs::async_openai::get_chat_completion_max_tokens`: how many
      completion tokens a model has left once the messages are in its
      context. */
  type Budget = (string, seq<Message>) -> int

  /** `CreateChatCompletionRequest`, without its temperature. */
  datatype Request = Request(model: string, messages: seq<Message>)

  datatype Error =
      /** The panic "a model should be available". */
    | NoModelAvailable

  /** The position in `Models` of the first model, in price order, with a
      positive completion budget for the messages. */
  function ModelIndex(messages: seq<Message>, budget: Budget): (r: Option<nat>)
    ensures r.Some? ==> r.value < |Models| && budget(Models[r.value], messages) > 0
    ensures r.Some? ==> forall j :: 0 <= j < r.value ==> budget(Models[j], messages) <= 0
    ensures r.None? <==> forall i :: 0 <= i < |Models| ==> budget(Models[i], messages) <= 0
  {
    FirstIndex(Models, (model: string) => budget(model, messages) > 0)
  }

  /** `choose_model`: the first model, in price order, with a positive
      completion budget for the messages. */
  function ChooseModel(messages: seq<Message>, budget: Budget): (r: Option<string>)
    ensures r.Some? ==> r.value in Models && budget(r.value, messages) > 0
    ensures r.Some? ==> exists i :: (0 <= i < |Models| && Models[i] == r.value &&
      forall j :: 0 <= j < i ==> budget(Models[j], messages) <= 0)
    ensures r.None? <==> forall i :: 0 <= i < |Models| ==> budget(Models[i], messages) <= 0
  {
    match ModelIndex(messages, budget)
    case None => None
    case Some(i) => Some(Models[i])
  }

  /** A conversation that leaves every model fewer tokens never moves the
      choice to a cheaper model. */
  lemma ChooseModelMonotone(shorter: seq<Message>, longer: seq<Message>, budget: Budget)
    requires forall i :: 0 <= i < |Models| ==> budget(Models[i], longer) <= budget(Models[i], shorter)
    ensures ModelIndex(longer, budget).Some? ==>
      ModelIndex(shorter, budget).Some? && ModelIndex(shorter, budget).value <= ModelIndex(longer, budget).value
  {
    var l := ModelIndex(longer, budget);
    if l.Some? {
      assert budget(Models[l.value], shorter) > 0;
    }
  }

  /** `retrieve_messages`: a single user message whose content is the input,
      untrimmed. */
  function RetrieveMessages(input: string): (r: seq<Message>)
    ensures |r| == 1
    ensures r[0].role == User && r[0].content == Some(input)
    ensures r[0].name.None? && r[0].functionCall.None?
  {
    [Message(User, Some(input), None, None)]
  }

  /** `create_request`: the messages of `retrieve_messages` and the model
      `choose_model` picks for them. Without a model the source panics. */
  function CreateRequest(input: string, budget: Budget): (r: Result<Request, Error>)
    ensures r.Ok? <==> exists i :: 0 <= i < |Models| && budget(Models[i], RetrieveMessages(input)) > 0
    ensures r.Err? ==> r.error == NoModelAvailable
    ensures r.Ok? ==> r.value.messages == RetrieveMessages(input)
    ensures r.Ok? ==> r.value.model == ChooseModel(RetrieveMessages(input), budget).value
  {
    var messages := RetrieveMessages(input);
    match ChooseModel(messages, budget)
    case None => Err(NoModelAvailable)
    case Some(model) => Ok(Request(model, messages))
  }

  /** The request goes to the cheapest model with completion tokens left for
      the one user message. */
  lemma CreateRequestCheapest(input: string, budget: Budget)
    requires CreateRequest(input, budget).Ok?
    ensures var r := CreateRequest(input, budget).value;
      && r.model in Models
      && r.messages == [Message(User, Some(input), None, None)]
      && budget(r.model, r.messages) > 0
      && exists i :: 0 <= i < |Models| && Models[i] == r.model &&
           forall j :: 0 <= j < i ==> budget(Models[j], r.messages) <= 0
  {
  }
}
