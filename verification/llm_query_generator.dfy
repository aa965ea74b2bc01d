/** `get_gemini_response` and `LLM_Data_Controller.generate_gemini_query`: one call to
    the hosted model, then cleanup of its text, with every failure turned into an error
    whose message carries a fixed prefix. */
module LlmQueryGenerator {
  import opened Wrappers
  import opened Replace
  import opened Whitespace
  import opened SqlCleanup

  /** What one `generate_content` call ends in: the text of the response, or the message
      of the exception raised while producing or reading it. */
  datatype ModelOutcome = Generated(text: string) | Raised(message: string)

  /** The hosted model, seen only through what it answers to a list of message parts. */
  type Model = seq<string> -> ModelOutcome

  /** Prefix of the message of every error `get_gemini_response` raises. */
  const ErrorPrefix: string := "Error generating response: "

  /** Message of the `IndexError` raised by `prompt[0]` on an empty prompt list. */
  const IndexErrorMessage: string := "list index out of range"

  /** `get_gemini_response(question, prompt, model)`: sends the first prompt part and the
      question, in that order, then strips and cleans the reply. Any exception on the way,
      including indexing an empty prompt list, comes back as one error. */
  function GetGeminiResponse(question: string, prompt: seq<string>, model: Model): (r: Result<string, string>)
    ensures |prompt| == 0 ==> r == Err(ErrorPrefix + IndexErrorMessage)
    ensures |prompt| > 0 ==> (r.Ok? <==> model([prompt[0], question]).Generated?)
    ensures |prompt| > 0 && model([prompt[0], question]).Generated? ==>
              r == Ok(CleanSqlQuery(model([prompt[0], question]).text))
    ensures |prompt| > 0 && model([prompt[0], question]).Raised? ==>
              r == Err(ErrorPrefix + model([prompt[0], question]).message)
    ensures r.Ok? ==> IsStripped(r.value) && !Contains(r.value, Fence)
    ensures r.Err? ==> ErrorPrefix <= r.error
  {
    if |prompt| == 0 then
      Err(ErrorPrefix + IndexErrorMessage)
    else
      match model([prompt[0], question])
      case Raised(m) => Err(ErrorPrefix + m)
      case Generated(text) =>
        CleanAfterStrip(text);
        Ok(CleanSqlQuery(Strip(text)))
  }

  /** `LLM_Data_Controller`: the model handle and the prompt list. */
  datatype LlmDataController = LlmDataController(model: Model, prompt: seq<string>)

  /** The constructor keeps the model and the module's one-element prompt list. */
  function NewController(model: Model, instructions: string): LlmDataController {
    LlmDataController(model, [instructions])
  }

  /** `generate_gemini_query(user_question)`: delegates to `get_gemini_response` with the
      controller's own prompt and model. */
  function GenerateGeminiQuery(c: LlmDataController, question: string): Result<string, string> {
    GetGeminiResponse(question, c.prompt, c.model)
  }

  /** For a controller built around the instruction text, the model is sent exactly the
      instructions followed by the question; its text comes back cleaned and its failure
      comes back with the prefix. */
  lemma GenerateGeminiQueryDelegates(model: Model, instructions: string, question: string)
    ensures model([instructions, question]).Generated? ==>
              GenerateGeminiQuery(NewController(model, instructions), question)
              == Ok(CleanSqlQuery(model([instructions, question]).text))
    ensures model([instructions, question]).Raised? ==>
              GenerateGeminiQuery(NewController(model, instructions), question)
              == Err(ErrorPrefix + model([instructions, question]).message)
  {
    var c := NewController(model, instructions);
    assert c.prompt[0] == instructions;
  }

  /** The query depends on the model only through its answer to that one request: two
      models that agree on it give the same result. */
  lemma OnlyTheRequestMatters(m1: Model, m2: Model, instructions: string, question: string)
    requires m1([instructions, question]) == m2([instructions, question])
    ensures GenerateGeminiQuery(NewController(m1, instructions), question)
         == GenerateGeminiQuery(NewController(m2, instructions), question)
  {
    GenerateGeminiQueryDelegates(m1, instructions, question);
    GenerateGeminiQueryDelegates(m2, instructions, question);
  }
}
