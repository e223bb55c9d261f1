# LLM chat application core, modelled in Dafny

This project models the pure decisions of a small clean-architecture chat
service that calls a LangChain chat model:

- **`JSONOutputParser.parse`**: the extractor that turns a model's free-text
  reply into JSON. It works in four steps:
  1. The fence step takes the body of a fenced Markdown code block.
  2. The embedded step takes the bracketed span when the text does not
     start with a bracket.
  3. `json.loads` decodes the text.
  4. In lenient mode only, a trailing-comma repair runs and the text is
     decoded again.

  The failure messages differ by mode.
- **`LangChainOutputParser.parse`**: normalises whatever a LangChain parser
  returns into a dict.
- **The LangChain adapter**: converts domain messages into LangChain
  messages, optionally prepending a system prompt. It also filters
  streamed chunks down to the ones that carry text.
- **The use cases**: the chat use case parses the reply, or degrades to no
  parsed output when parsing fails. The stream use case forwards chunks.
- **`_convert_to_domain_messages`**: checks the roles of the request
  messages, all or nothing, and answers an invalid role with status 422.
- **The domain entities**: `MessageRole`, `ChatMessage` and
  `ChatResponse`, with their `to_dict` projections.
- **The application wiring**: the JSON parser is always built lenient.

Modules follow the program's layers:

| module | file | holds |
|---|---|---|
| `Results` | results.dfy | `Option`, `Result` |
| `Chars` | chars.dfy | Python and JSON whitespace, digits, numerals |
| `JsonValue` | json_value.dfy | the JSON value tree, dict lookup and insertion |
| `JsonDecode` | json_decode.dfy | `json.loads`: recursive descent with Python's error kinds and positions |
| `JsonFacts` | json_facts.dfy | what the decoder accepts and refuses, and strict against lax decoding |
| `Extract` | extract.dfy | the fence and embedded regular expressions as search functions |
| `Repair` | repair.dfy | the two `re.sub` trailing-comma passes |
| `OutputParser` | output_parser.dfy | both output parsers and their error messages |
| `Entities` | entities.dfy | the domain entities |
| `LlmAdapter` | adapter.dfy | message conversion and the stream filter |
| `ChatUseCases` | use_cases.dfy | parse-or-degrade and stream forwarding |
| `Dependencies` | dependencies.dfy | which output parser the application builds |
| `Routes` | routes.dfy | request-message role validation |

Some things become parameters:

- The model's reply, as a string.
- The streamed chunks, as a sequence.
- The parser wrapped by `LangChainOutputParser`, as a function returning a
  `Result`.

Python's `None` in `parsed_output` and in `to_dict` output is JSON `null`.

The decoder follows `json.loads` and `int()` as in CPython 3.11 and 3.12:
the limit of 4300 digits for integer conversion exists since 3.11, and the
error messages are worded as through 3.12.

## Model

| member | source | states |
|---|---|---|
| Extract.Fenced | src/infrastructure/parsers/json_parser.py:33-35 | Without a fence match the text is kept. With one, the text becomes a body that opens with a bracket and closes with that bracket's closer, shorter than the text by at least the three backticks. |
| Extract.Embedded | src/infrastructure/parsers/json_parser.py:39 | The embedded pattern matches exactly when some position opens it, and its match runs from an opener to a closer of the same kind. |
| Extract.EmbeddedStep | src/infrastructure/parsers/json_parser.py:38-41 | A text that starts with a bracket after stripping is kept. Otherwise, when the embedded pattern can start somewhere, the text becomes a bracketed span of itself. The result is never longer than the text. |
| Extract.WorkingText | src/infrastructure/parsers/json_parser.py:33-41 | The text the decoder sees is the reply itself or a bracketed span of it, never longer. After a fence match it is always bracketed. |
| Extract.FenceAt | src/infrastructure/parsers/json_parser.py:33 | A fence at `p` is three backticks, an optional `json` and whitespace. Its body opens with `{` or `[` and ends at the FIRST matching closer that is followed by optional whitespace and three backticks (lazy `.*?`). |
| Extract.FindFence | src/infrastructure/parsers/json_parser.py:33-35 | The fence used is the leftmost one; no earlier position starts a fence. |
| Extract.NoTicksNoFence | src/infrastructure/parsers/json_parser.py:33-35 | A text without a backtick is not touched by the fence step. |
| Extract.FenceBodyKept | src/infrastructure/parsers/json_parser.py:33-41 | When a fence matches, the working text is its body: it starts with an opener, ends with that opener's closer, and the embedded step leaves it alone. |
| Extract.FencePick | src/infrastructure/parsers/json_parser.py:33-41 | The working text is exactly `text[b..e+1]`, given a leftmost fence at `p` whose body starts at `b` and first closes at `e`. |
| Extract.FenceCaptures | tests/unit/infrastructure/test_parsers.py:18-39 | A reply made of backtick-free prose, a labelled (` ```json `) or unlabelled fence whose body is a one-level object on its own line, and any text after the closing fence yields exactly that object's text. |
| Extract.FindEmbedded | src/infrastructure/parsers/json_parser.py:39 | The embedded match starts at the leftmost opener that has a closer of its own kind somewhere after it. |
| Extract.LastIndex | src/infrastructure/parsers/json_parser.py:39 | The greedy `.*` stops at the last occurrence of the closer. |
| Extract.EmbeddedPick | src/infrastructure/parsers/json_parser.py:38-41 | A text that does not start with a bracket after stripping becomes `text[i..k+1]`, from the leftmost usable opener `i` to the last same-kind closer `k`. |
| Extract.EmbeddedNone | src/infrastructure/parsers/json_parser.py:39-41 | With no usable opener, the embedded step leaves the text unchanged. |
| Extract.NoFenceEmbedded | src/infrastructure/parsers/json_parser.py:33-41 | Without a fence, the working text is the embedded step applied to the original text. |
| Extract.OpenerKept | src/infrastructure/parsers/json_parser.py:38 | A text that starts with `{` or `[` after stripping passes the embedded step whole. |
| Extract.BracketedKept | src/infrastructure/parsers/json_parser.py:33-41 | Without a backtick, such a text reaches the decoder as it is, leading whitespace and trailing prose included. |
| Extract.FenceInString | src/infrastructure/parsers/json_parser.py:33-35 | In `{"a": "```[1]```"}` the fence match is the one inside the string value, with body `[1]`. |
| Extract.BracketBeforeObject | src/infrastructure/parsers/json_parser.py:39 | `Note [see] {"a": 1}` gives `[see]`: a bracket ahead of a later object wins. |
| Repair.DropCommas | src/infrastructure/parsers/json_parser.py:51-52 | One substitution pass never lengthens the text. |
| Repair.RepairText | src/infrastructure/parsers/json_parser.py:51-52 | The two passes together never lengthen the text. |
| Repair.DropCommasNone | src/infrastructure/parsers/json_parser.py:51-52 | A text without a comma that whitespace alone separates from the closer passes unchanged. |
| Repair.RepairDeletesOnly | src/infrastructure/parsers/json_parser.py:51-52 | The repaired text is a subsequence of the input. Every character other than commas and whitespace keeps its count, so brackets and quotes survive. |
| Repair.RepairIdentity | src/infrastructure/parsers/json_parser.py:51-52 | Repair changes the text if and only if it holds a comma followed, after whitespace, by `}` or `]`. |
| Repair.DropCommasShrinks | src/infrastructure/parsers/json_parser.py:51-52 | Each pass that finds a trailing comma makes the text strictly shorter. |
| Repair.DropCommasCount | src/infrastructure/parsers/json_parser.py:51-52 | A single pass keeps the count of every character that is neither a comma nor whitespace. |
| Repair.CommaBeforeClose | src/infrastructure/parsers/json_parser.py:51-52 | A comma directly before the closer is removed, and the pass continues after the closer. |
| Repair.OnePassOnly | src/infrastructure/parsers/json_parser.py:51-52 | The pass is not iterated: `,,}` becomes `,}` and `,}` becomes `}`. |
| Repair.DropCommasSplit | src/infrastructure/parsers/json_parser.py:51-52 | The pass is local: cut the text after a point that no `,\s*}` match straddles, and the result is the two pieces repaired apart and joined. |
| Repair.DropCommasRun | src/infrastructure/parsers/json_parser.py:51-52 | A comma, a whitespace run and the closer become the closer alone, and the pass resumes after it. |
| Repair.RepairList | src/infrastructure/parsers/json_parser.py:51-52 | `[1,2,]` becomes `[1,2]`: the comma between items is kept. |
| Repair.RepairInsideString | src/infrastructure/parsers/json_parser.py:51-52 | Repair also deletes commas inside string literals: `{"a": ",}"}` becomes `{"a": "}"}`. |
| JsonValue.FromPairs | src/infrastructure/parsers/json_parser.py:44 | A decoded object has distinct keys. Each key's value is the last one given for it. |
| JsonValue.FromPairsDistinct | src/infrastructure/parsers/json_parser.py:44 | Pairs with distinct keys are kept as they are, in order. |
| JsonValue.PutLookup | src/infrastructure/parsers/json_parser.py:44 | After `d[k] = v`, `k` maps to `v` and every other key keeps its value. |
| JsonDecode.Decode | src/infrastructure/parsers/json_parser.py:44 | A leading byte-order mark is refused at index 0. Every error lies within the text. A decoded object has distinct keys. |
| JsonDecode.ParseValue | src/infrastructure/parsers/json_parser.py:44 | At the end of the text the error is "Expecting value". A string value runs from `"` to `"`, an object from `{` to `}` with distinct keys, an array from `[` to `]`. A value always consumes at least one character. |
| JsonDecode.ParseObject | src/infrastructure/parsers/json_parser.py:44 | An object read after its `{` ends with `}` and has distinct keys. |
| JsonDecode.ParseArray | src/infrastructure/parsers/json_parser.py:44 | An array read after its `[` ends with `]`. |
| JsonDecode.ParseStringBody | src/infrastructure/parsers/json_parser.py:44 | A string body ends at a `"`, decodes to fewer characters than it spans, and fails within the string literal. |
| JsonDecode.ParseEscape | src/infrastructure/parsers/json_parser.py:44 | A one-character escape is the character the escape table gives for it; a `\u` escape ends after its four hex digits, or after a second `\uXXXX` when it is a surrogate pair. Any other character after the backslash gives the invalid-escape error at the backslash. |
| JsonFacts.DecodeLax | src/infrastructure/parsers/json_parser.py:44 | A text that decodes with `strict=True` decodes to the same value with `strict=False`. |
| JsonFacts.DecodeRefused | src/infrastructure/parsers/json_parser.py:44-45 | A text whose first non-whitespace character cannot start a JSON value, or that is all whitespace, raises. |
| JsonFacts.ValueRefused | src/infrastructure/parsers/json_parser.py:44-45 | A value cannot start at a character that opens no JSON value; the error is "Expecting value" at that position. |
| JsonFacts.PlainString | src/infrastructure/parsers/json_parser.py:44 | A string without quotes, backslashes or control characters decodes to itself, in both modes. |
| OutputParser.Parse | src/infrastructure/parsers/json_parser.py:20-55 | A failure records its mode and the text it is about; the error position lies within that text. A strict or lenient failure is raised by the `ValueError` of line 47 or 55 and is about the working text. An over-long integer (the scanner's own `ValueError`) is exactly the unwrapped case. A strict failure carries the error of decoding the working text with `strict=True`, a lenient one that of decoding it with `strict=False`. An unwrapped failure carries the first decode's digit-limit error about the working text or, in lenient mode when the first decode failed otherwise, the repaired re-decode's digit-limit error about the repaired text. A value is what the first decode returns or, in lenient mode after that decode failed, what the strict re-decode of the repaired text returns. |
| OutputParser.Message | src/infrastructure/parsers/json_parser.py:46-55 | A strict failure reads `Failed to parse JSON: ` and a lenient one `Failed to parse JSON output: `, each followed by the rendered `JSONDecodeError`. An unwrapped error keeps the text `int()` gave it. |
| JsonDecode.Render | src/infrastructure/parsers/json_parser.py:47 | `str(JSONDecodeError)` starts with the error's message. On the first line of the document it ends with `: line 1 column <pos+1> (char <pos>)`. |
| JsonDecode.NumberTail | src/infrastructure/parsers/json_parser.py:44 | An integer lexeme (digits with no fraction or exponent after them) of more than 4300 digits raises the digit-limit error at its start. A shorter one is read to its last digit and is the digits' value, negated after a minus sign. A lexeme with a fraction or exponent becomes a float lexeme that extends past its digits. |
| JsonDecode.ParseNumber | src/infrastructure/parsers/json_parser.py:44 | A number that fails fails at its first character, with "Expecting value" or the digit-limit error; a character that starts no number gives "Expecting value". |
| JsonFacts.DigitsDecode | src/infrastructure/parsers/json_parser.py:44 | A canonical numeral decodes to its value when it has at most 4300 digits, and raises the digit-limit error at index 0 otherwise. |
| JsonFacts.NatRoundTrip | src/infrastructure/parsers/json_parser.py:44 | Writing a natural number in decimal and decoding it gives the number back, in both modes, up to 4300 digits. |
| JsonFacts.StringRoundTrip | src/infrastructure/parsers/json_parser.py:44 | A quoted string without quotes, backslashes or control characters decodes to itself, in both modes. |
| JsonFacts.ControlStops | src/infrastructure/parsers/json_parser.py:44 | A strict read of a string stops at its first raw control character with "Invalid control character at". |
| OutputParser.MessagesDiffer | src/infrastructure/parsers/json_parser.py:47-55 | A strict message and a lenient message are never the same text. |
| OutputParser.StrictImpliesLenient | src/infrastructure/parsers/json_parser.py:43-44 | Whatever the strict parser returns, the lenient parser returns too, with the identical value. |
| OutputParser.StrictNeverRepairs | src/infrastructure/parsers/json_parser.py:45-47 | The strict parser succeeds exactly when the working text decodes strictly; no repair is tried. |
| OutputParser.LenientReportsFirstError | src/infrastructure/parsers/json_parser.py:48-55 | A failure of mode Lenient means both the first decode and the repaired re-decode failed. The message carries the FIRST decode's error. |
| OutputParser.RepairLimitEscapes | src/infrastructure/parsers/json_parser.py:43-55 | When the first lax decode fails with a `JSONDecodeError` and the strict re-decode of the repaired text hits the integer digit limit, that second error leaves `parse` unwrapped, about the repaired text. |
| OutputParser.IntLimitSkipsRepair | src/infrastructure/parsers/json_parser.py:43-55 | When the first decode hits the integer digit limit, that error leaves `parse` unwrapped, in both modes, and no repair is tried. |
| OutputParser.LongIntegerEscapes | src/infrastructure/parsers/json_parser.py:43-55 | A numeral of more than 4300 digits fails in both modes with `int()`'s own message, without either prefix. |
| OutputParser.EntryControlRefused | src/infrastructure/parsers/json_parser.py:53 | `{"k": "v"}` with a raw control character in `v` is refused by a strict decode at that character. |
| OutputParser.ControlCharAfterRepair | src/infrastructure/parsers/json_parser.py:44-55 | The re-decode uses the default `strict=True`: `{"k": "v",}` with a control character in `v` is accepted by the lax first decode once the comma is gone, yet the lenient parser fails, reporting the first decode's error. |
| OutputParser.FenceInsideString | src/infrastructure/parsers/json_parser.py:33-44 | `{"a": "```[1]```"}` decodes to its dict, but the parser returns `[1]`: the fence step also searches inside string values. |
| OutputParser.LeadingBracketRefused | src/infrastructure/parsers/json_parser.py:38-55 | `  [1] tail` starts with a bracket after stripping, so neither regex step changes it, and it fails in both modes with "Extra data" at index 6. |
| OutputParser.LenientSucceeds | src/infrastructure/parsers/json_parser.py:43-53 | The lenient parser returns the first decode's value when there is one, otherwise the repaired re-decode's value. |
| OutputParser.UnbracketedKept | src/infrastructure/parsers/json_parser.py:33-41 | A text with no backtick and no bracket reaches the decoder unchanged. |
| OutputParser.ProseRefused | src/infrastructure/parsers/json_parser.py:38-55 | A text with no bracket and no backtick fails in both modes when it is blank, or when its first non-whitespace character cannot start a JSON value. |
| OutputParser.EmptyRefused | tests/unit/infrastructure/test_parsers.py:71-74 | The empty string fails in both modes. |
| OutputParser.SentenceRefused | tests/unit/infrastructure/test_parsers.py:62-69 | `This is not JSON at all` fails in both modes with "Expecting value" at index 0, and the lenient failure's message starts with `Failed to parse JSON output: `. |
| OutputParser.OneEntryDecodes | src/infrastructure/parsers/json_parser.py:44 | `{"k": "v"}` decodes to the one-entry object, in both modes. |
| OutputParser.TrailingEntryRefused | src/infrastructure/parsers/json_parser.py:44-47 | `{"k": "v",}` does not decode: a trailing comma is refused by `json.loads`. |
| OutputParser.TrailingCommaByMode | src/infrastructure/parsers/json_parser.py:45-53 | `{"k": "v",}` raises in strict mode and yields `{"k": "v"}` in lenient mode. |
| OutputParser.TrailingCommaExample | tests/unit/infrastructure/test_parsers.py:55-82 | `{"key": "value",}` raises in strict mode and yields `{"key": "value"}` in lenient mode. |
| OutputParser.Normalise | src/infrastructure/parsers/json_parser.py:80-88 | A dict is returned as it is. An object with `dict()` gives what `dict()` returns; one with only `__dict__` gives its fields. A scalar result `r` is wrapped as the one-entry dict `{"result": r}`. |
| OutputParser.LangChainParse | src/infrastructure/parsers/json_parser.py:78-88 | It fails exactly when the wrapped parser raises, and with that error. Otherwise its result is the normalised output of the wrapped parser. |
| OutputParser.NormaliseIdempotent | src/infrastructure/parsers/json_parser.py:81-82 | A dict result comes back unchanged, so normalising a normalised result changes nothing. |
| OutputParser.DictMethodWins | src/infrastructure/parsers/json_parser.py:83-86 | An object with a `dict()` method is converted by it, whether or not it also has fields. |
| Entities.RoleValue | src/domain/entities/message.py:7-11 | Each role's value is its own: `user` for USER, `assistant` for ASSISTANT, `system` for SYSTEM, and no other role has it. |
| Entities.ParseRole | src/domain/entities/message.py:7-11 | A role string is accepted exactly when it is `user`, `assistant` or `system` (case-sensitive), and the role found has that value. |
| Entities.RoleRoundTrip | src/domain/entities/message.py:7-11 | Every role is found again from its value. |
| Entities.RoleValuesDistinct | src/domain/entities/message.py:7-11 | No two roles share a value. |
| Entities.NewMessage | src/domain/entities/message.py:14-19 | `metadata` defaults to `None`. |
| Entities.MessageToDict | src/domain/entities/message.py:21-27 | The dict has three distinct keys. |
| Entities.MessageDictKeys | src/domain/entities/message.py:21-27 | The keys are `role`, `content` and `metadata`, in that order. |
| Entities.MessageDictRoundTrip | src/domain/entities/message.py:21-27 | The dict keeps everything: the role's value, the content, and the metadata or `null`. The message is read back from it. |
| Entities.NewResponse | src/domain/entities/message.py:30-34 | `parsed_output` defaults to `None`. |
| Entities.ResponseToDict | src/domain/entities/message.py:36-41 | The dict has two distinct keys: `message` maps to the message's own dict and `parsed_output` to the parsed output. |
| Entities.ResponseDictRoundTrip | src/domain/entities/message.py:36-41 | `message` maps to the message's own dict and `parsed_output` to the parsed output; the response is read back from it. |
| LlmAdapter.ConvertOne | src/infrastructure/llm/langchain_adapter.py:41-47 | The LangChain class stands for the message's role, and the content is copied. |
| LlmAdapter.ConvertAll | src/infrastructure/llm/langchain_adapter.py:41-47 | One LangChain message per domain message, in order, with the role mapped (USER→Human, ASSISTANT→AI, SYSTEM→System) and the content copied. |
| LlmAdapter.ConvertMessages | src/infrastructure/llm/langchain_adapter.py:22-49 | The output has `len(messages)` elements, plus one for a non-empty system prompt, which comes first. An absent or empty prompt adds nothing. |
| LlmAdapter.ConvertOneInverse | src/infrastructure/llm/langchain_adapter.py:41-47 | The role and content can be read back from each converted message. |
| LlmAdapter.MetadataDropped | src/infrastructure/llm/langchain_adapter.py:41-47 | Messages alike in role and content convert identically: metadata never reaches the model. |
| LlmAdapter.ChatReply | src/infrastructure/llm/langchain_adapter.py:65-73 | The reply is an assistant message with the model's text, no metadata and no parsed output. |
| LlmAdapter.StreamFilter | src/infrastructure/llm/langchain_adapter.py:91-93 | Every yielded chunk is non-empty, and there are no more of them than chunks received. |
| LlmAdapter.StreamFilterConcat | src/infrastructure/llm/langchain_adapter.py:91-93 | The filter goes chunk by chunk: filtering two parts of a stream and joining the results is filtering the whole stream. |
| LlmAdapter.StreamFilterOne | src/infrastructure/llm/langchain_adapter.py:92-93 | A single chunk yields its content when that content is present and non-empty, and nothing otherwise. |
| LlmAdapter.StreamKeepsText | src/infrastructure/llm/langchain_adapter.py:91-93 | The yielded chunks concatenate to all the text of the stream: only empty or absent contents are dropped. |
| LlmAdapter.StreamAllCarry | src/infrastructure/llm/langchain_adapter.py:91-93 | A stream whose chunks all carry text is yielded whole, in order. |
| LlmAdapter.StreamNoneCarry | src/infrastructure/llm/langchain_adapter.py:91-93 | A stream without text yields nothing. |
| ChatUseCases.RunParser | src/application/use_cases/chat_use_case.py:47-50 | The parser is given exactly the message content. A JSON parser's value or error is the one `parse` gives. A LangChain parser's value is the object of its normalised dict, and its error is the wrapped parser's. |
| ChatUseCases.Execute | src/application/use_cases/chat_use_case.py:25-55 | The message is never changed. Without `parse_output` or without a parser, the response is returned as it came. Otherwise `parsed_output` is the parsed value, or `None` when parsing raises. |
| ChatUseCases.ExecuteIdempotent | src/application/use_cases/chat_use_case.py:46-55 | Executing the parse step again changes nothing. |
| ChatUseCases.LangChainOutputIsDict | src/application/use_cases/chat_use_case.py:46-53 | Behind a LangChain parser, `parsed_output` is a dict exactly when the wrapped parser returns, and `None` when it raises. |
| ChatUseCases.ExecuteDegrades | src/application/use_cases/chat_use_case.py:51-53 | A reply the parser refuses gives the same dict as a fresh response with no parsed output; no error propagates. |
| ChatUseCases.StreamExecute | src/application/use_cases/chat_use_case.py:83-87 | Every chunk is forwarded, unchanged and in order, so the concatenation is the service's output. |
| Dependencies.OutputParserFor | src/dependencies.py:44-57 | A parser exists exactly when output parsing is enabled and the parser type is `json`, and it is then the lenient JSON parser. |
| Dependencies.ConfiguredChatIsLenient | src/dependencies.py:55 | The configured chat parses with `strict=False`: the parsed output is the lenient parser's value, or `None`. |
| Dependencies.ConfiguredAgreesWithStrict | src/dependencies.py:55 | A reply that a strict parser would accept gets the same parsed output from the configured lenient parser. |
| Dependencies.UnconfiguredChatUntouched | src/dependencies.py:51-57 | With parsing disabled or another parser type, the reply is never touched. |
| Routes.ConvertToDomain | src/presentation/api/routes.py:20-39 | The conversion succeeds if and only if every role is valid. On success it preserves length and order and copies content and metadata. Otherwise it gives status 422, naming the FIRST invalid role. An empty list converts to an empty list. |
| Routes.DomainRoundTrip | src/presentation/api/routes.py:20-39 | Domain messages written back as request messages convert to themselves. |
| Routes.SchemaRoundTrip | src/presentation/api/routes.py:20-39 | Converted messages written back are the request messages. |

## Left out

- The HTTP surface is not modelled: route handlers, `StreamingResponse`, CORS, the health endpoint and pydantic validation of requests and responses. This includes the response schema's demand that `parsed_output` be a dict: a reply that decodes to a list is not rejected here.
- Async machinery and network calls (`ainvoke`, `astream`) are not modelled. The model's text and the streamed chunks are parameters.
- Client construction, `lru_cache` and settings loading are not modelled. Only the choice made at src/dependencies.py:51-57 is modelled.
- JSON numbers with a fraction or exponent, and `NaN`/`Infinity`/`-Infinity`, are accepted exactly where `json.loads` accepts them. They are kept as their lexeme because floating point is not modelled.
- `\uXXXX` escapes are decoded. A lone surrogate becomes U+FFFD, because a Dafny `char` cannot hold a surrogate.
- Python's recursion limit on deeply nested JSON is not modelled.
- Whitespace for `str.strip` and the regular expressions' `\s` uses CPython's full list of whitespace characters, not only ASCII. JSON whitespace is the four characters `json.loads` skips.
- Routes.ConvertToDomain: the 422 detail quotes the role as `'role'` without Python's `repr` escaping of quotes, backslashes and non-printable characters.
- JsonDecode.Render: the line and column are stated only for an error on the first line of the document.
- OutputParser.LenientReportsFirstError: covers only failures of mode Lenient. A re-decode that hits the integer digit limit raises that error instead, as `RepairLimitEscapes` and `Parse` state.
- CPython 3.13 words the trailing-comma errors differently ("Illegal trailing comma before end of object" and "… of array"). The model keeps the wording of 3.11 and 3.12.
- `parse(json.dumps(d)) == d` does not hold for every dict `d`: the fence and embedded steps also run on valid JSON. For example, a string value holding a fenced block such as "```[1]```" makes the parser return `[1]` (`OutputParser.FenceInsideString`). No serializer is part of this model, so no general round trip is stated. The restricted round trips `JsonFacts.NatRoundTrip` and `JsonFacts.StringRoundTrip` are stated for the decoder, and `OutputParser.OneEntryDecodes` for one-entry dicts.
- The fence pattern's `.*?` is lazy: `Extract.FirstClose` takes the first closing fence, not the last.
- `ILLMService` and `IOutputParser` have no behaviour. The parsers a use case can be given are the closed datatype `ChatUseCases.OutputParserImpl`.
