/** The chat service: API-key validation and the guard that keeps
    `sendChatRequest` from making a request with an unusable key. The key is
    a parameter (the build-time environment variable, absent or a string);
    the HTTP exchange itself is an input, `network`. */
module AiService {
  import opened Wrappers

  datatype Role = User | Assistant | System

  datatype Message = Message(role: Role, content: string)

  /** `{ isValid, message? }` as returned by `validateApiKey`. */
  datatype Validation = Validation(isValid: bool, message: Option<string>)

  const MissingKeyMessage: string :=
    "OpenRouter API key is missing. Please add it to your .env file as VITE_OPENROUTER_API_KEY."
  const PlaceholderKey: string := "your_openrouter_api_key_here"
  const PlaceholderMessage: string :=
    "Please replace the placeholder API key with your actual OpenRouter API key in the .env file."

  /** A key is usable when it is present, non-empty and not the placeholder. */
  predicate UsableKey(key: Option<string>)
  {
    key.Some? && key.value != "" && key.value != PlaceholderKey
  }

  function ValidateApiKey(key: Option<string>): (v: Validation)
    ensures v.isValid <==> UsableKey(key)
    ensures v.isValid <==> v.message.None?
    ensures key.None? || key == Some("") ==> v.message == Some(MissingKeyMessage)
    ensures key == Some(PlaceholderKey) ==> v.message == Some(PlaceholderMessage)
  {
    if key.None? || key.value == "" then Validation(false, Some(MissingKeyMessage))
    else if key.value == PlaceholderKey then Validation(false, Some(PlaceholderMessage))
    else Validation(true, None)
  }

  /** `sendChatRequest(messages)`: with an unusable key it fails with the
      validation message; otherwise the request carries `messages` and the
      outcome is what the network returned. */
  function SendChatRequest(key: Option<string>, messages: seq<Message>, network: Result<Message, string>)
    : (r: Result<Message, string>)
    ensures !UsableKey(key) ==> r == Failure(ValidateApiKey(key).message.value)
    ensures UsableKey(key) ==> r == network
  {
    var validation := ValidateApiKey(key);
    if !validation.isValid then Failure(validation.message.value)
    else network
  }

  /** With an unusable key the outcome does not depend on the network at all:
      no request is made. */
  lemma RefusedBeforeRequest(key: Option<string>, messages: seq<Message>, n1: Result<Message, string>, n2: Result<Message, string>)
    requires !ValidateApiKey(key).isValid
    ensures SendChatRequest(key, messages, n1) == SendChatRequest(key, messages, n2)
    ensures SendChatRequest(key, messages, n1).Failure?
  {
  }
}
