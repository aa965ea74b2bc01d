# Natural-language-to-SQL backend: query cleanup and the query endpoint

This project models the core of a small Flask backend. The backend turns a user's
question about health data into an SQLite query by asking a Gemini model, cleans the
model's reply into a bare SQL string, runs it, and returns the query and its rows as JSON.

The model covers three parts:

- `clean_sql_query`. It removes every `` ```sql `` tag, then every bare `` ``` `` fence,
  and strips surrounding whitespace. Python's `str.replace` is modelled exactly
  (`Replace.ReplaceAll`: left to right, non-overlapping, and the empty-pattern case too).
  Python's `str.strip()` is modelled over the `str.isspace` character set
  (`Whitespace.Strip`).
- `get_gemini_response` and `LLM_Data_Controller.generate_gemini_query`. The model is a
  function from the list of message parts to a `ModelOutcome`: a text, or the message of
  the exception it raised. Every failure becomes an error prefixed with
  `"Error generating response: "`. That includes indexing an empty prompt list.
- `get_data_from_llm`, the `POST /post/query` handler. It takes the decoded JSON body
  plus two collaborators passed in as functions: the translator (question to SQL) and
  the executor (SQL to rows). It returns the status, the payload, and the trace of
  collaborator calls, so "not invoked" is a statement about that trace.

The code removes the markers anywhere in the reply, not only around its ends.
`SqlCleanup.TickRunShrinks` states the exact effect of the bare-marker pass alone: a run of
n backticks becomes n mod 3 backticks. Over the whole cleanup, removing the tag first can
join two runs; `SqlCleanup.TagRemovalJoinsTickRuns` shows a reply that this empties.

## Model

| member | source | states |
|---|---|---|
| SqlCleanup.CleanSqlQuery | Backend/LLMQueryGenerator.py:13-15 | the cleaned query has no leading or trailing whitespace, contains no ``` anywhere, and is never longer than the input |
| SqlCleanup.NoFenceAfterRemoval | Backend/LLMQueryGenerator.py:14 | after every ``` is removed, no new ``` can appear where the pieces meet |
| SqlCleanup.TickRunShrinks | Backend/LLMQueryGenerator.py:14 | in the bare-marker pass `.replace('```', '')`, a run of n backticks followed by a non-backtick shrinks to n mod 3 backticks, and the rest is processed independently |
| SqlCleanup.TagRemovalJoinsTickRuns | Backend/LLMQueryGenerator.py:14-15 | across both passes runs can be joined: removing the tag from "`````sql`" leaves ``` and the reply cleans to the empty string |
| SqlCleanup.CleanFixedPoint | Backend/LLMQueryGenerator.py:13-15 | cleaning leaves a string unchanged exactly when it has no ``` and no surrounding whitespace |
| SqlCleanup.CleanIdempotent | Backend/LLMQueryGenerator.py:13-15 | cleaning an already cleaned query changes nothing |
| SqlCleanup.CleanIgnoresOuterSpace | Backend/LLMQueryGenerator.py:13-15 | whitespace added around a reply does not change its cleaned form |
| SqlCleanup.CleanAfterStrip | Backend/LLMQueryGenerator.py:20-21 | stripping the reply before cleaning it, as the caller does, gives the same result as cleaning it directly |
| SqlCleanup.CleanFencedBlock | Backend/LLMQueryGenerator.py:13-15 | a reply of the form ```sql body ``` whose body contains no ``` cleans to the stripped body, backtick-quoted identifiers in the body included |
| SqlCleanup.CleanPaddedFencedBlock | Backend/LLMQueryGenerator.py:13-15 | the same holds when the fenced block is surrounded by whitespace |
| SqlCleanup.CleanMultiLineExample | Backend/LLMQueryGenerator.py:13-15 | the reply "```sql\nSELECT 1;\n```" cleans to "SELECT 1;" |
| SqlCleanup.CleanGluedExample | Backend/LLMQueryGenerator.py:14-15 | the reply "```sqlSELECT 1;```" cleans to "SELECT 1;" |
| SqlCleanup.SwappedOrderKeepsTag | Backend/LLMQueryGenerator.py:14 | removing bare fences before the tag would leave "sqlSELECT 1;", so the tag must go first |
| Replace.ReplaceAll | Backend/LLMQueryGenerator.py:14 | `str.replace` with an empty pattern yields a result as long as the input plus one copy of the replacement per character and one more; removing a non-empty pattern never lengthens the string; no character outside the input and the replacement appears |
| Replace.EmptyPatternAppend | Backend/LLMQueryGenerator.py:14 | with an empty pattern, appending a character to the input appends that character and then the replacement to the result, so the replacement stands before every character and once at the end |
| Replace.RemoveFixedPoint | Backend/LLMQueryGenerator.py:14 | removing a non-empty pattern leaves the string unchanged exactly when the pattern does not occur in it |
| Replace.ReplaceSplitsAt | Backend/LLMQueryGenerator.py:14 | a character that is not part of the pattern splits replacement into two independent halves |
| Replace.ReplaceFreeSuffix | Backend/LLMQueryGenerator.py:14 | a suffix made only of characters outside the pattern passes through replacement untouched |
| Whitespace.Strip | Backend/LLMQueryGenerator.py:15 | `strip()` gives a stripped string that is a contiguous slice of the input with only whitespace cut on either side |
| Whitespace.StripCharacterization | Backend/LLMQueryGenerator.py:15 | a stripped string wrapped in whitespace strips back to itself |
| Whitespace.StripSplit | Backend/LLMQueryGenerator.py:15 | every string is whitespace, then its stripped form, then whitespace |
| Whitespace.StripFixedPoint | Backend/LLMQueryGenerator.py:15 | `strip()` leaves a string unchanged exactly when it has no surrounding whitespace |
| Whitespace.StripIdempotent | Backend/LLMQueryGenerator.py:15 | stripping twice is the same as stripping once |
| LlmQueryGenerator.GetGeminiResponse | Backend/LLMQueryGenerator.py:17-23 | the model is sent the first prompt part and the question, in that order; its text comes back as the cleaned query; its failure, or an empty prompt list, comes back as "Error generating response: " followed by the exception's message |
| LlmQueryGenerator.GenerateGeminiQueryDelegates | Backend/LLMQueryGenerator.py:105-108 | about `NewController` (the prompt assignment) and `GenerateGeminiQuery` (the delegation): a controller holding the one-element prompt list sends the model exactly [instructions, question] and returns the cleaned text or the prefixed error |
| LlmQueryGenerator.OnlyTheRequestMatters | Backend/LLMQueryGenerator.py:19 | two models that answer that one request alike yield the same query |
| Routers.GetDataFromLlm | Backend/Routers.py:9-31 | a body that decodes to None or another falsy value is a 400 "No input data provided"; otherwise a missing or empty question is a 400 "The 'question' field is missing"; a 400 calls nothing; a 200 happens exactly when translation and execution both succeed, has exactly the keys query and results, reports the translator's string verbatim, and ran the executor on that string; any failure is a 500 carrying the exception message; every status is 200, 400 or 500 |
| Routers.RejectionIgnoresCollaborators | Backend/Routers.py:11-17 | the answer to a rejected body does not depend on the translator or the executor, and neither is called |
| Routers.ExecutorRunsTranslatedQuery | Backend/Routers.py:19-24 | the executor is only called second, after the translator was called on the question, and only on the string the translator returned |
| Routers.FailureCarriesOnlyError | Backend/Routers.py:12-31 | every non-200 payload has the single key error, so a failed execution never reports the query |
| Routers.GeminiBackedHandler | Backend/Routers.py:18-27 | with the Gemini controller as translator, a 200 reports the model's text cleaned (stripped, without fences), and a model failure is a 500 with the prefixed message and no SQL run |

## Left out

- Loading the API key and `genai.configure` (LLMQueryGenerator.py:7-10) are process start-up and I/O.
- The prompt text (LLMQueryGenerator.py:26-96) is treated as an opaque instruction string.
- The controller constructor's model creation and its `ValueError` (LLMQueryGenerator.py:99-103) are folded into the translator's failure: the handler only sees the message.
- The `__main__` demonstration (LLMQueryGenerator.py:110-133) is not part of this model.
- Flask routing, `request.json` parsing errors and `jsonify` serialisation are framework plumbing. The handler starts from the decoded body. With recent Werkzeug versions a missing or non-JSON body raises inside the `try` and is answered 500 (Routers.py:29-31); that case is a decoding failure and is not modelled.
- JSON floating-point numbers are not modelled. A truthy non-object body (a list, string, number or `true`) makes `.get` raise, and the model answers 500 with the `AttributeError` message.
- The database connection and `execute_query` (Routers.py:21-26) are one opaque executor. SQLController.py is not part of this model.
- The connection and cursor are not closed when execution raises (Routers.py:25-26). The model has no resources, so this is not represented.
- The `print` of the error (Routers.py:30) is logging only.
- Routers.GetDataFromLlm: the translator receives the question value as decoded JSON. A non-string question reaches the model unchanged and is not given string semantics.
- No check that the generated SQL is read-only or safe; the source performs none.
