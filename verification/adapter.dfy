/** The LangChain adapter: domain messages become LangChain messages before
    the model is called, and a streamed reply keeps only the chunks that
    carry text. The model itself is a parameter. */
module LlmAdapter {
  import opened Results
  import opened JsonValue
  import opened Entities

  /** The three LangChain message classes the adapter builds. */
  datatype LcMessage =
    | SystemMessage(content: string)
    | HumanMessage(content: string)
    | AIMessage(content: string)

  /** Python truthiness of the optional system prompt: `None` and `""` are
      both false. */
  predicate HasPrompt(systemPrompt: Option<string>) {
    systemPrompt.Some? && |systemPrompt.value| > 0
  }

  /** The LangChain message one domain message becomes. */
  function ConvertOne(m: ChatMessage): (lc: LcMessage)
    ensures RoleOf(lc) == m.role && lc.content == m.content
  {
    match m.role
    case User => HumanMessage(m.content)
    case Assistant => AIMessage(m.content)
    case System => SystemMessage(m.content)
  }

  /** The role a LangChain message class stands for. */
  function RoleOf(lc: LcMessage): MessageRole {
    match lc
    case SystemMessage(_) => System
    case HumanMessage(_) => User
    case AIMessage(_) => Assistant
  }

  /** The loop over the messages, one LangChain message per domain message,
      in order. */
  function ConvertAll(messages: seq<ChatMessage>): (r: seq<LcMessage>)
    ensures |r| == |messages|
    ensures forall i :: 0 <= i < |messages| ==>
      RoleOf(r[i]) == messages[i].role && r[i].content == messages[i].content
  {
    if |messages| == 0 then []
    else [ConvertOne(messages[0])] + ConvertAll(messages[1..])
  }

  /** `_convert_messages(messages, system_prompt)`. */
  function ConvertMessages(messages: seq<ChatMessage>, systemPrompt: Option<string>): (r: seq<LcMessage>)
    ensures |r| == |messages| + (if HasPrompt(systemPrompt) then 1 else 0)
    ensures HasPrompt(systemPrompt) ==> r[0] == SystemMessage(systemPrompt.value)
    ensures var offset := if HasPrompt(systemPrompt) then 1 else 0;
      forall i :: 0 <= i < |messages| ==>
        RoleOf(r[i + offset]) == messages[i].role && r[i + offset].content == messages[i].content
  {
    (if HasPrompt(systemPrompt) then [SystemMessage(systemPrompt.value)] else [])
      + ConvertAll(messages)
  }

  /** Each conversion is undone by reading the role off the class and the
      content off the message. */
  lemma ConvertOneInverse(m: ChatMessage)
    ensures NewMessage(RoleOf(ConvertOne(m)), ConvertOne(m).content) == NewMessage(m.role, m.content)
    ensures ConvertOne(NewMessage(RoleOf(ConvertOne(m)), ConvertOne(m).content)) == ConvertOne(m)
  {
  }

  /** Two message lists alike in roles and contents convert to the same
      LangChain messages: the metadata never reaches the model. */
  lemma {:induction false} MetadataDropped(a: seq<ChatMessage>, b: seq<ChatMessage>, systemPrompt: Option<string>)
    requires |a| == |b|
    requires forall i :: 0 <= i < |a| ==> a[i].role == b[i].role && a[i].content == b[i].content
    ensures ConvertMessages(a, systemPrompt) == ConvertMessages(b, systemPrompt)
  {
    ConvertAllAlike(a, b);
  }

  lemma {:induction false} ConvertAllAlike(a: seq<ChatMessage>, b: seq<ChatMessage>)
    requires |a| == |b|
    requires forall i :: 0 <= i < |a| ==> a[i].role == b[i].role && a[i].content == b[i].content
    ensures ConvertAll(a) == ConvertAll(b)
  {
    if |a| > 0 {
      ConvertAllAlike(a[1..], b[1..]);
    }
  }

  /** `ChatResponse(message=ChatMessage(role=ASSISTANT, content=...))`
      built from the text the model answered with. */
  function ChatReply(answer: string): (r: ChatResponse)
    ensures r.message.role == Assistant && r.message.content == answer
    ensures r.message.metadata.None? && r.parsedOutput == Null
  {
    NewResponse(NewMessage(Assistant, answer))
  }

  /** One streamed chunk: `content` is absent when the chunk has no such
      attribute. */
  datatype Chunk = Chunk(content: Option<string>)

  /** A chunk `stream` passes on: it has a `content` and it is not empty. */
  predicate Carries(c: Chunk) {
    c.content.Some? && |c.content.value| > 0
  }

  /** The text a chunk contributes to the whole reply. */
  function TextOf(c: Chunk): string {
    if c.content.Some? then c.content.value else ""
  }

  /** All the text of a sequence of strings, in order. */
  function Concat(parts: seq<string>): string {
    if |parts| == 0 then "" else parts[0] + Concat(parts[1..])
  }

  /** All the text a stream of chunks carries, in order. */
  function StreamText(chunks: seq<Chunk>): string {
    if |chunks| == 0 then "" else TextOf(chunks[0]) + StreamText(chunks[1..])
  }

  /** The loop of `stream`: the contents of the chunks that carry text, in
      order. */
  function StreamFilter(chunks: seq<Chunk>): (r: seq<string>)
    ensures |r| <= |chunks|
    ensures forall i :: 0 <= i < |r| ==> |r[i]| > 0
  {
    if |chunks| == 0 then []
    else if Carries(chunks[0]) then [chunks[0].content.value] + StreamFilter(chunks[1..])
    else StreamFilter(chunks[1..])
  }

  lemma ConcatPrepend(x: string, rest: seq<string>)
    ensures Concat([x] + rest) == x + Concat(rest)
  {
    assert ([x] + rest)[1..] == rest;
  }

  /** Dropping the empty and absent chunks loses no text: the yielded
      pieces add up to the whole reply. */
  lemma {:induction false} StreamKeepsText(chunks: seq<Chunk>)
    ensures Concat(StreamFilter(chunks)) == StreamText(chunks)
  {
    if |chunks| > 0 {
      StreamKeepsText(chunks[1..]);
      if Carries(chunks[0]) {
        ConcatPrepend(chunks[0].content.value, StreamFilter(chunks[1..]));
      }
    }
  }

  /** A stream whose every chunk carries text is passed on whole. */
  lemma {:induction false} StreamAllCarry(chunks: seq<Chunk>)
    requires forall i :: 0 <= i < |chunks| ==> Carries(chunks[i])
    ensures StreamFilter(chunks) == seq(|chunks|, i requires 0 <= i < |chunks| => TextOf(chunks[i]))
  {
    if |chunks| > 0 {
      StreamAllCarry(chunks[1..]);
    }
  }

  /** A stream with no text yields nothing. */
  lemma {:induction false} StreamNoneCarry(chunks: seq<Chunk>)
    requires forall i :: 0 <= i < |chunks| ==> !Carries(chunks[i])
    ensures StreamFilter(chunks) == []
  {
    if |chunks| > 0 {
      StreamNoneCarry(chunks[1..]);
    }
  }
  /** The filter works chunk by chunk: filtering a stream in two pieces
      and joining the results is filtering it whole. */
  lemma {:induction false} StreamFilterConcat(a: seq<Chunk>, b: seq<Chunk>)
    ensures StreamFilter(a + b) == StreamFilter(a) + StreamFilter(b)
  {
    if |a| > 0 {
      assert (a + b)[0] == a[0];
      assert (a + b)[1..] == a[1..] + b;
      StreamFilterConcat(a[1..], b);
    } else {
      assert a + b == b;
    }
  }

  /** One chunk yields its text when it carries some, and nothing
      otherwise. */
  lemma StreamFilterOne(c: Chunk)
    ensures Carries(c) ==> StreamFilter([c]) == [c.content.value]
    ensures !Carries(c) ==> StreamFilter([c]) == []
  {
    assert [c][1..] == [];
  }
}
