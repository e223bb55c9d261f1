/** The wiring of the output parser: which parser, if any, the chat use
    case is given, from the two settings that decide it. */
module Dependencies {
  import opened Results
  import opened JsonValue
  import opened OutputParser
  import opened Entities
  import opened ChatUseCases

  /** `get_output_parser()` for the settings `enable_output_parsing` and
      `parser_type`. */
  function OutputParserFor(enableOutputParsing: bool, parserType: string): (r: Option<OutputParserImpl>)
    ensures r.Some? <==> enableOutputParsing && parserType == "json"
    ensures r.Some? ==> r.value.JsonOutputParser? && !r.value.strict
  {
    if !enableOutputParsing then None
    else if parserType == "json" then Some(JsonOutputParser(false))
    else None
  }

  /** With parsing enabled, the application's chat parses leniently: the
      parsed output is the lenient parser's value, or null when even the
      repair does not help. */
  lemma ConfiguredChatIsLenient(response: ChatResponse)
    ensures Execute(response, OutputParserFor(true, "json"), true).parsedOutput
         == (match Parse(response.message.content, false)
             case Ok(v) => v
             case Err(_) => Null)
  {
  }

  /** A reply that a strict parser would accept gets the same parsed output
      from the application's lenient parser. */
  lemma ConfiguredAgreesWithStrict(response: ChatResponse)
    requires Parse(response.message.content, true).Ok?
    ensures Execute(response, OutputParserFor(true, "json"), true).parsedOutput
         == Parse(response.message.content, true).value
  {
    StrictImpliesLenient(response.message.content);
  }

  /** With parsing disabled, or any other parser type, the reply is never
      touched. */
  lemma UnconfiguredChatUntouched(response: ChatResponse, enableOutputParsing: bool, parserType: string, parseOutput: bool)
    requires !enableOutputParsing || parserType != "json"
    ensures Execute(response, OutputParserFor(enableOutputParsing, parserType), parseOutput) == response
  {
  }
}
