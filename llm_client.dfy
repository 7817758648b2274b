/**
 `get_response_from_llm` in main.py: the chat-completion request body sent
 for a PDF context and a query, and the reply read back out of the parsed
 JSON response. The HTTP POST itself is not modelled; the parsed response is
 an input.
 */
module LlmClient {

  const ModelId: string := "meta-llama/Meta-Llama-3-70B-Instruct"
  const ContextPrefix: string := "The user has provided the following text from a PDF document: "
  const NoResponse: string := "No response"
  const BearerPrefix: string := "Bearer "

  // ---------------------------------------------------------------------------
  // Request

  datatype Message = Message(role: string, content: string)

  /** The JSON body of the POST, field by field. */
  datatype ChatRequest = ChatRequest(
    model: string,
    messages: seq<Message>,
    temperature: int,
    maxTokens: int,
    topP: int,
    frequencyPenalty: int)

  /** The `Authorization` header value: the key behind the bearer scheme. */
  function AuthorizationHeader(apiKey: string): (h: string)
    ensures |h| == |BearerPrefix| + |apiKey|
    ensures h[..|BearerPrefix|] == BearerPrefix && h[|BearerPrefix|..] == apiKey
  {
    BearerPrefix + apiKey
  }

  /** Reads back the context and the query of a body shaped like the ones
      `get_response_from_llm` sends, and `None` for any other body. */
  function ParseRequest(req: ChatRequest): Option<(string, string)> {
    if && req.model == ModelId
       && |req.messages| == 2
       && req.messages[0].role == "system"
       && ContextPrefix <= req.messages[0].content
       && req.messages[1].role == "user"
       && req.temperature == 1 && req.maxTokens == 256
       && req.topP == 1 && req.frequencyPenalty == 0
    then Some((req.messages[0].content[|ContextPrefix|..], req.messages[1].content))
    else None
  }

  /** The request body for a context and a query. */
  function BuildRequest(context: string, query: string): (req: ChatRequest)
    ensures ParseRequest(req) == Some((context, query))
  {
    ChatRequest(
      ModelId,
      [Message("system", ContextPrefix + context), Message("user", query)],
      1, 256, 1, 0)
  }

  /** The body has exactly two messages, the system message carrying the
      fixed prefix followed by the context and the user message carrying the
      query; every other field is fixed. */
  lemma RequestShape(context: string, query: string)
    ensures var req := BuildRequest(context, query);
      && |req.messages| == 2
      && req.messages[0] == Message("system", ContextPrefix + context)
      && req.messages[1] == Message("user", query)
      && req.model == ModelId
      && req.temperature == 1 && req.maxTokens == 256
      && req.topP == 1 && req.frequencyPenalty == 0
  {
  }

  /** Every body `ParseRequest` accepts is the one built from what it reads
      back, so different (context, query) pairs give different bodies. */
  lemma ParseRequestOnlyBuilt(req: ChatRequest, context: string, query: string)
    requires ParseRequest(req) == Some((context, query))
    ensures req == BuildRequest(context, query)
  {
    var content := req.messages[0].content;
    assert content[..|ContextPrefix|] == ContextPrefix;
    assert content == ContextPrefix + context by {
      assert content == content[..|ContextPrefix|] + content[|ContextPrefix|..];
    }
    assert req.messages[0] == Message("system", ContextPrefix + context);
    assert req.messages == [req.messages[0], req.messages[1]];
  }

  // ---------------------------------------------------------------------------
  // Reply

  /** A parsed JSON value. Numbers are kept as integers: only their kind
      matters to the reply extraction. */
  datatype Json =
    | Null
    | Bool(b: bool)
    | Number(n: int)
    | Str(s: string)
    | Array(items: seq<Json>)
    | Object(fields: map<string, Json>)

  /** The Python exceptions the extraction can raise. */
  datatype PyException = AttributeError | IndexError | KeyError | TypeError

  /** A Python expression's value, or the exception it raised. */
  datatype Outcome = Returned(value: Json) | Raised(exception: PyException) {
    predicate IsFailure() { Raised? }
    function PropagateFailure(): Outcome requires Raised? { this }
    function Extract(): Json requires Returned? { value }
  }

  /** `obj.get(key, default)`: only dictionaries have `get`. */
  function Get(obj: Json, key: string, default: Json): (r: Outcome)
    ensures !obj.Object? ==> r == Raised(AttributeError)
    ensures obj.Object? ==> r.Returned? && r.value == if key in obj.fields then obj.fields[key] else default
  {
    match obj
    case Object(fields) => Returned(if key in fields then fields[key] else default)
    case _ => Raised(AttributeError)
  }

  /** `v[0]`: lists and strings index by position, a dictionary from JSON
      has only string keys so `0` is missing, anything else is not
      subscriptable. */
  function First(v: Json): (r: Outcome)
    ensures v.Array? ==> r == if v.items == [] then Raised(IndexError) else Returned(v.items[0])
    ensures v.Str? ==> r == if v.s == [] then Raised(IndexError) else Returned(Str(v.s[..1]))
    ensures v.Object? ==> r == Raised(KeyError)
    ensures v.Null? || v.Bool? || v.Number? ==> r == Raised(TypeError)
  {
    match v
    case Array(items) => if items == [] then Raised(IndexError) else Returned(items[0])
    case Str(s) => if s == [] then Raised(IndexError) else Returned(Str(s[..1]))
    case Object(_) => Raised(KeyError)
    case _ => Raised(TypeError)
  }

  /** The response shapes on which the extraction does not raise: an
      object whose `choices`, when present, is a non-empty list whose first
      element is an object whose `message`, when present, is an object. */
  predicate ReplyReadable(response: Json) {
    && response.Object?
    && ("choices" in response.fields ==>
          var choices := response.fields["choices"];
          && choices.Array? && choices.items != []
          && choices.items[0].Object?
          && ("message" in choices.items[0].fields ==>
                choices.items[0].fields["message"].Object?))
  }

  /** What the extraction returns on a readable response: the first
      choice's message content where every step is present, the sentinel
      otherwise. */
  function ExpectedReply(response: Json): Json
    requires ReplyReadable(response)
  {
    if "choices" !in response.fields then Str(NoResponse)
    else
      var first := response.fields["choices"].items[0];
      if "message" !in first.fields then Str(NoResponse)
      else
        var message := first.fields["message"];
        if "content" in message.fields then message.fields["content"] else Str(NoResponse)
  }

  /** `response_data.get("choices", [{}])[0].get("message", {}).get("content", "No response")` */
  function ExtractReply(response: Json): (r: Outcome)
    ensures r.Returned? <==> ReplyReadable(response)
    ensures r.Returned? ==> r.value == ExpectedReply(response)
  {
    var choices :- Get(response, "choices", Array([Object(map[])]));
    var first :- First(choices);
    var message :- Get(first, "message", Object(map[]));
    Get(message, "content", Str(NoResponse))
  }

  /** A response without `choices` gives the sentinel. */
  lemma ReplyWithoutChoices(fields: map<string, Json>)
    requires "choices" !in fields
    ensures ExtractReply(Object(fields)) == Returned(Str(NoResponse))
  {
  }

  /** An empty `choices` list raises `IndexError` at `[0]`. */
  lemma ReplyEmptyChoices(fields: map<string, Json>)
    requires "choices" in fields && fields["choices"] == Array([])
    ensures ExtractReply(Object(fields)) == Raised(IndexError)
  {
  }

  /** A first choice without `message`, or a message without `content`,
      gives the sentinel; a message with `content` gives that content. */
  lemma ReplyFromFirstChoice(fields: map<string, Json>, first: map<string, Json>, rest: seq<Json>)
    requires "choices" in fields && fields["choices"] == Array([Object(first)] + rest)
    ensures "message" !in first ==> ExtractReply(Object(fields)) == Returned(Str(NoResponse))
    ensures "message" in first && first["message"].Object? ==>
      var message := first["message"].fields;
      ExtractReply(Object(fields)) == Returned(if "content" in message then message["content"] else Str(NoResponse))
  {
  }

  /** A response that is not a JSON object raises `AttributeError` at the
      first `get`. */
  lemma ReplyNotAnObject(response: Json)
    requires !response.Object?
    ensures ExtractReply(response) == Raised(AttributeError)
  {
  }

  /** Which exception each malformed step raises: `[0]` on a dictionary
      raises `KeyError`, on a number, boolean or null `TypeError`, on an
      empty string `IndexError`; a `get` on anything but a dictionary raises
      `AttributeError`. */
  lemma ReplyExceptions(fields: map<string, Json>)
    requires "choices" in fields
    ensures var choices := fields["choices"];
      && (choices.Object? ==> ExtractReply(Object(fields)) == Raised(KeyError))
      && (choices.Null? || choices.Bool? || choices.Number? ==> ExtractReply(Object(fields)) == Raised(TypeError))
      && (choices == Str([]) ==> ExtractReply(Object(fields)) == Raised(IndexError))
      && (choices.Str? && choices.s != [] ==> ExtractReply(Object(fields)) == Raised(AttributeError))
      && (choices.Array? && choices.items != [] && !choices.items[0].Object? ==>
            ExtractReply(Object(fields)) == Raised(AttributeError))
      && (choices.Array? && choices.items != [] && choices.items[0].Object?
          && "message" in choices.items[0].fields && !choices.items[0].fields["message"].Object? ==>
            ExtractReply(Object(fields)) == Raised(AttributeError))
  {
  }

  /** The completion the endpoint sends for a reply text. */
  function Completion(reply: string): Json {
    Object(map["choices" := Array([Object(map["message" := Object(map["role" := Str("assistant"), "content" := Str(reply)])])])])
  }

  /** Whatever text the endpoint replies with is what the extraction
      returns. */
  lemma ReplyOfCompletion(reply: string)
    ensures ExtractReply(Completion(reply)) == Returned(Str(reply))
  {
  }

  datatype Option<T> = None | Some(value: T)
}
