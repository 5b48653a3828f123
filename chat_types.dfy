/** The chat-completion message types of `async_openai::types` that the model
    needs. */
module ChatTypes {
  import opened Wrappers

  datatype Role = System | User | Assistant | Function

  /** A function call requested by the assistant: its name and its arguments
      as JSON text. */
  datatype FunctionCall = FunctionCall(name: string, arguments: string)

  /** `ChatCompletionRequestMessage`. */
  datatype Message = Message(
    role: Role,
    content: Option<string>,
    name: Option<string>,
    functionCall: Option<FunctionCall>)
}
