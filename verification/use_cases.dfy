/** The two use cases: a chat whose reply may be parsed into structured
    output, and a stream that is forwarded as it comes. */
module ChatUseCases {
  import opened Results
  import opened JsonValue
  import opened OutputParser
  import opened Entities
  import opened LlmAdapter

  /** The output parsers the application has: every parser it can be given
      is one of these two. */
  datatype OutputParserImpl =
    | JsonOutputParser(strict: bool)
    | LangChainOutputParser(parse: string -> Result<ParserOutput, string>)

  /** `output_parser.parse(text)`: the parsed value, or the message of the
      exception it raises. */
  function RunParser(p: OutputParserImpl, text: string): (r: Result<Json, string>)
    ensures p.JsonOutputParser? ==> (r.Ok? <==> Parse(text, p.strict).Ok?)
    ensures p.JsonOutputParser? && r.Ok? ==> r.value == Parse(text, p.strict).value
    ensures p.JsonOutputParser? && r.Err? ==>
      r.error == Message(Parse(text, p.strict).error)
    ensures p.LangChainOutputParser? ==> (r.Ok? <==> p.parse(text).Ok?)
    ensures p.LangChainOutputParser? && r.Ok? ==> r.value == Obj(Normalise(p.parse(text).value))
    ensures p.LangChainOutputParser? && r.Err? ==> r.error == p.parse(text).error
  {
    match p
    case JsonOutputParser(strict) =>
      (match Parse(text, strict)
       case Ok(v) => Ok(v)
       case Err(f) => Err(Message(f)))
    case LangChainOutputParser(parse) =>
      var d :- LangChainParse(parse, text);
      Ok(Obj(d))
  }

  /** `ChatUseCase.execute`, given the response the model service returned:
      when parsing is asked for and a parser is configured, `parsed_output`
      becomes the parsed value, or `None` when the parser raises. */
  function Execute(response: ChatResponse, parser: Option<OutputParserImpl>, parseOutput: bool): (r: ChatResponse)
    ensures r.message == response.message
    ensures !parseOutput || parser.None? ==> r == response
    ensures parseOutput && parser.Some? ==>
      (RunParser(parser.value, response.message.content).Ok? ==>
         r.parsedOutput == RunParser(parser.value, response.message.content).value)
    ensures parseOutput && parser.Some? ==>
      (RunParser(parser.value, response.message.content).Err? ==> r.parsedOutput == Null)
  {
    if parseOutput && parser.Some? then
      match RunParser(parser.value, response.message.content)
      case Ok(v) => response.(parsedOutput := v)
      case Err(_) => response.(parsedOutput := Null)
    else response
  }

  /** Parsing depends on the message alone, so executing again changes
      nothing. */
  lemma ExecuteIdempotent(response: ChatResponse, parser: Option<OutputParserImpl>, parseOutput: bool)
    ensures Execute(Execute(response, parser, parseOutput), parser, parseOutput)
         == Execute(response, parser, parseOutput)
  {
  }

  /** Behind a LangChain parser the stored `parsed_output` is always a dict
      or `None`, whatever the wrapped parser returns: normalising makes a
      dict of every result. */
  lemma LangChainOutputIsDict(response: ChatResponse, parse: string -> Result<ParserOutput, string>)
    ensures var r := Execute(response, Some(LangChainOutputParser(parse)), true);
      r.parsedOutput.Obj? || r.parsedOutput.Null?
    ensures var r := Execute(response, Some(LangChainOutputParser(parse)), true);
      r.parsedOutput.Obj? <==> parse(response.message.content).Ok?
  {
  }

  /** A reply the parser refuses is returned as it came, with `parsed_output`
      null in its dict: the failure never reaches the caller. */
  lemma ExecuteDegrades(response: ChatResponse, p: OutputParserImpl)
    requires RunParser(p, response.message.content).Err?
    ensures ResponseToDict(Execute(response, Some(p), true))
         == ResponseToDict(NewResponse(response.message))
  {
  }

  /** Forwarding the stream: every chunk the service yields is yielded, in
      order. */
  method StreamExecute(chunks: seq<string>) returns (out: seq<string>)
    ensures |out| == |chunks|
    ensures forall i :: 0 <= i < |chunks| ==> out[i] == chunks[i]
    ensures Concat(out) == Concat(chunks)
  {
    out := [];
    var k := 0;
    while k < |chunks|
      invariant 0 <= k <= |chunks|
      invariant out == chunks[..k]
    {
      out := out + [chunks[k]];
      k := k + 1;
    }
    assert out == chunks;
  }
}
