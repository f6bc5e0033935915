/** The foreign capabilities the core calls. Each is an oracle: the model is handed
    its answer as a function of the request, with failure (an exception in the
    source) as an explicit outcome. */
module Oracles {

  /** What a foreign call that produces text comes back with. */
  datatype Reply = Ok(text: string) | Fail

  /** The chat-completion call: `(prompt, max_tokens)` to the model's message content. */
  type ChatCompletion = (string, nat) -> Reply

  /** The literal translator: `(text, src, dest)` to the translated text. */
  type LiteralTranslator = (string, string, string) -> Reply
}
