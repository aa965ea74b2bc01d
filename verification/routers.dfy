/** The `POST /post/query` handler `get_data_from_llm`: validate the JSON body, translate
    the question into SQL, run the SQL, and map every outcome to a status and a payload. */
module Routers {
  import opened Wrappers
  import opened Replace
  import opened Whitespace
  import opened SqlCleanup
  import opened LlmQueryGenerator

  /** A decoded JSON value (floating-point numbers are not modelled). */
  datatype Json =
    | Null
    | Bool(b: bool)
    | Int(i: int)
    | Str(s: string)
    | Array(items: seq<Json>)
    | Object(fields: map<string, Json>)

  /** Python truthiness of the decoded value, as `if not data` and `if not user_question`
      test it. */
  predicate Truthy(j: Json) {
    match j
    case Null => false
    case Bool(b) => b
    case Int(i) => i != 0
    case Str(s) => |s| > 0
    case Array(items) => |items| > 0
    case Object(fields) => |fields| > 0
  }

  /** Python type name of the decoded value, as it appears in an `AttributeError`. */
  function TypeName(j: Json): string {
    match j
    case Null => "NoneType"
    case Bool(_) => "bool"
    case Int(_) => "int"
    case Str(_) => "str"
    case Array(_) => "list"
    case Object(_) => "dict"
  }

  /** `data.get('question')`: the value under the key, or `None` when it is absent. */
  function Question(fields: map<string, Json>): Json {
    if "question" in fields then fields["question"] else Null
  }

  const NoInputMessage: string := "No input data provided"
  const MissingQuestionMessage: string := "The 'question' field is missing"

  /** The message of the `AttributeError` raised by `.get` on a body that is not an object. */
  function NoGetMessage(data: Json): string {
    "'" + TypeName(data) + "' object has no attribute 'get'"
  }

  /** The two collaborators the handler calls, in the order it calls them. */
  datatype Call = Translate(question: Json) | Execute(sql: string)

  /** Status code and the keys of the JSON object returned. */
  datatype Response = Response(status: int, payload: map<string, Json>)

  /** A response together with the collaborator calls made while producing it. */
  datatype Handled = Handled(response: Response, calls: seq<Call>)

  /** Question to SQL: `LLM_Data_Controller().generate_gemini_query`, whose failures
      (including building the controller) carry the exception message. */
  type Translator = Json -> Result<string, string>

  /** SQL to rows: connecting to the database and `execute_query`, whose failures carry
      the exception message. */
  type Executor = string -> Result<Json, string>

  function ErrorResponse(status: int, message: string): Response {
    Response(status, map["error" := Str(message)])
  }

  /** The body passes both validation checks: a non-empty object with a truthy question. */
  predicate Accepted(data: Json) {
    data.Object? && Truthy(data) && Truthy(Question(data.fields))
  }

  /** The body fails one of the two validation checks that answer 400. */
  predicate Rejected(data: Json) {
    !Truthy(data) || (data.Object? && !Truthy(Question(data.fields)))
  }

  /** `get_data_from_llm` on the decoded body. */
  function GetDataFromLlm(data: Json, translate: Translator, execute: Executor): (h: Handled)
    ensures h.response.status in {200, 400, 500}
    ensures h.response.status == 400 <==> Rejected(data)
    ensures h.response.status == 400 ==> h.calls == []
    ensures !Truthy(data) ==> h.response == ErrorResponse(400, NoInputMessage)
    ensures Truthy(data) && data.Object? && !Truthy(Question(data.fields)) ==>
              h.response == ErrorResponse(400, MissingQuestionMessage)
    ensures Truthy(data) && !data.Object? ==> h == Handled(ErrorResponse(500, NoGetMessage(data)), [])
    ensures h.response.status == 200 <==>
              Accepted(data) && translate(Question(data.fields)).Ok?
              && execute(translate(Question(data.fields)).value).Ok?
    ensures h.response.status == 200 ==>
              var sql := translate(Question(data.fields)).value;
              && h.response.payload.Keys == {"query", "results"}
              && h.response.payload["query"] == Str(sql)
              && h.response.payload["results"] == execute(sql).value
              && h.calls == [Translate(Question(data.fields)), Execute(sql)]
    ensures Accepted(data) && translate(Question(data.fields)).Err? ==>
              h == Handled(ErrorResponse(500, translate(Question(data.fields)).error),
                           [Translate(Question(data.fields))])
    ensures Accepted(data) && translate(Question(data.fields)).Ok?
            && execute(translate(Question(data.fields)).value).Err? ==>
              var sql := translate(Question(data.fields)).value;
              h == Handled(ErrorResponse(500, execute(sql).error),
                           [Translate(Question(data.fields)), Execute(sql)])
  {
    if !Truthy(data) then
      Handled(ErrorResponse(400, NoInputMessage), [])
    else if !data.Object? then
      Handled(ErrorResponse(500, NoGetMessage(data)), [])
    else
      var question := Question(data.fields);
      if !Truthy(question) then
        Handled(ErrorResponse(400, MissingQuestionMessage), [])
      else
        match translate(question)
        case Err(m) => Handled(ErrorResponse(500, m), [Translate(question)])
        case Ok(sql) =>
          match execute(sql)
          case Err(m) => Handled(ErrorResponse(500, m), [Translate(question), Execute(sql)])
          case Ok(rows) =>
            Handled(Response(200, map["query" := Str(sql), "results" := rows]),
                    [Translate(question), Execute(sql)])
  }

  /** A rejected body is answered the same way whatever the translator and executor
      would do, and neither is called. */
  lemma RejectionIgnoresCollaborators(data: Json, t1: Translator, e1: Executor, t2: Translator, e2: Executor)
    requires Rejected(data)
    ensures GetDataFromLlm(data, t1, e1) == GetDataFromLlm(data, t2, e2)
    ensures GetDataFromLlm(data, t1, e1).calls == []
  {
  }

  /** The body check comes first: an empty object, which also has no question, is
      reported as missing input rather than as a missing question. */
  lemma BodyCheckPrecedesQuestionCheck(translate: Translator, execute: Executor)
    ensures !Truthy(Question(map[]))
    ensures GetDataFromLlm(Object(map[]), translate, execute).response == ErrorResponse(400, NoInputMessage)
  {
  }

  /** The executor is only ever given the string the translator produced, and only after
      the translator was called on the request's question. */
  lemma ExecutorRunsTranslatedQuery(data: Json, translate: Translator, execute: Executor, i: int)
    requires 0 <= i < |GetDataFromLlm(data, translate, execute).calls|
    requires GetDataFromLlm(data, translate, execute).calls[i].Execute?
    ensures i == 1 && Accepted(data)
    ensures GetDataFromLlm(data, translate, execute).calls[0] == Translate(Question(data.fields))
    ensures translate(Question(data.fields)) == Ok(GetDataFromLlm(data, translate, execute).calls[i].sql)
  {
  }

  /** Every response other than 200 carries exactly one key, the error message, so a
      failed execution never leaks the generated query. */
  lemma FailureCarriesOnlyError(data: Json, translate: Translator, execute: Executor)
    ensures GetDataFromLlm(data, translate, execute).response.status != 200 ==>
              GetDataFromLlm(data, translate, execute).response.payload.Keys == {"error"}
  {
  }

  /** End to end with the Gemini controller as translator: a 200 reports the model's text
      cleaned (stripped, no fences), and a model failure is a 500 carrying the prefixed
      message, without running any SQL. */
  lemma GeminiBackedHandler(data: Json, question: string, model: Model, instructions: string,
                            translate: Translator, execute: Executor)
    requires data.Object? && Question(data.fields) == Str(question) && |question| > 0
    requires translate(Str(question)) == GenerateGeminiQuery(NewController(model, instructions), question)
    ensures GetDataFromLlm(data, translate, execute).response.status == 200 ==>
              && model([instructions, question]).Generated?
              && GetDataFromLlm(data, translate, execute).response.payload["query"]
                 == Str(CleanSqlQuery(model([instructions, question]).text))
              && IsStripped(CleanSqlQuery(model([instructions, question]).text))
              && !Contains(CleanSqlQuery(model([instructions, question]).text), Fence)
    ensures model([instructions, question]).Raised? ==>
              GetDataFromLlm(data, translate, execute)
              == Handled(ErrorResponse(500, ErrorPrefix + model([instructions, question]).message),
                         [Translate(Str(question))])
  {
    assert "question" in data.fields;
    GenerateGeminiQueryDelegates(model, instructions, question);
  }
}
