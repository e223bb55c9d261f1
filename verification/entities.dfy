/** The domain entities: the role of a message, a chat message and a chat
    response, each with the dict `to_dict` projects it to. */
module Entities {
  import opened Results
  import opened JsonValue

  /** `MessageRole`. */
  datatype MessageRole = User | Assistant | System

  /** The enum's `.value`. */
  function RoleValue(r: MessageRole): (v: string)
    ensures v == "user" <==> r == User
    ensures v == "assistant" <==> r == Assistant
    ensures v == "system" <==> r == System
  {
    match r
    case User => "user"
    case Assistant => "assistant"
    case System => "system"
  }

  /** `MessageRole(s)`: the member whose value is exactly `s`, or the
      `ValueError` the enum raises. */
  function ParseRole(s: string): (r: Option<MessageRole>)
    ensures r.Some? ==> RoleValue(r.value) == s
    ensures r.None? <==> s != "user" && s != "assistant" && s != "system"
  {
    if s == "user" then Some(User)
    else if s == "assistant" then Some(Assistant)
    else if s == "system" then Some(System)
    else None
  }

  /** Every role is found again from its value. */
  lemma RoleRoundTrip(r: MessageRole)
    ensures ParseRole(RoleValue(r)) == Some(r)
  {
  }

  /** No two roles share a value. */
  lemma RoleValuesDistinct(a: MessageRole, b: MessageRole)
    requires RoleValue(a) == RoleValue(b)
    ensures a == b
  {
    RoleRoundTrip(a);
    RoleRoundTrip(b);
  }

  /** `ChatMessage`; `metadata` is a dict or `None`. */
  datatype ChatMessage = ChatMessage(role: MessageRole, content: string, metadata: Option<seq<Member>>)

  /** `ChatMessage(role=role, content=content)`: metadata defaults to `None`. */
  function NewMessage(role: MessageRole, content: string): (m: ChatMessage)
    ensures m.metadata.None?
    ensures m.role == role && m.content == content
  {
    ChatMessage(role, content, None)
  }

  /** The JSON form of an optional dict: `None` is `null`. */
  function OptionalDict(d: Option<seq<Member>>): Json {
    match d
    case None => Null
    case Some(ms) => Obj(ms)
  }

  /** `ChatMessage.to_dict`. */
  function MessageToDict(m: ChatMessage): (j: Json)
    ensures j.Obj? && |j.members| == 3 && DistinctKeys(j.members)
  {
    Obj([Member("role", Str(RoleValue(m.role))), Member("content", Str(m.content)),
         Member("metadata", OptionalDict(m.metadata))])
  }

  /** Reading a message back from a dict with the three keys `to_dict`
      writes. */
  function MessageFromDict(j: Json): Option<ChatMessage> {
    if !j.Obj? then None
    else
      var role := Lookup(j.members, "role");
      var content := Lookup(j.members, "content");
      var meta := Lookup(j.members, "metadata");
      if role.None? || !role.value.Str? || content.None? || !content.value.Str? || meta.None? then None
      else if ParseRole(role.value.s).None? then None
      else if meta.value.Null? then Some(ChatMessage(ParseRole(role.value.s).value, content.value.s, None))
      else if meta.value.Obj? then Some(ChatMessage(ParseRole(role.value.s).value, content.value.s, Some(meta.value.members)))
      else None
  }

  /** `to_dict` keeps everything: the role as its value, the content, and
      the metadata or `None`. */
  lemma MessageDictRoundTrip(m: ChatMessage)
    ensures MessageFromDict(MessageToDict(m)) == Some(m)
  {
    RoleRoundTrip(m.role);
    var ms := MessageToDict(m).members;
    assert Lookup(ms, "role") == Some(Str(RoleValue(m.role)));
    assert ms[1..][0].key == "content";
    assert Lookup(ms, "content") == Some(Str(m.content));
    assert ms[1..][1..][0].key == "metadata";
    assert Lookup(ms, "metadata") == Some(OptionalDict(m.metadata));
  }

  /** `to_dict` has exactly the keys `role`, `content` and `metadata`. */
  lemma MessageDictKeys(m: ChatMessage)
    ensures MessageToDict(m).members[0].key == "role"
    ensures MessageToDict(m).members[1].key == "content"
    ensures MessageToDict(m).members[2].key == "metadata"
  {
  }

  /** `ChatResponse`; `parsed_output` is whatever the parser returned, with
      `None` as `null`. */
  datatype ChatResponse = ChatResponse(message: ChatMessage, parsedOutput: Json)

  /** `ChatResponse(message=message)`: `parsed_output` defaults to `None`. */
  function NewResponse(message: ChatMessage): (r: ChatResponse)
    ensures r.parsedOutput == Null && r.message == message
  {
    ChatResponse(message, Null)
  }

  /** `ChatResponse.to_dict`. */
  function ResponseToDict(r: ChatResponse): (j: Json)
    ensures j.Obj? && |j.members| == 2 && DistinctKeys(j.members)
    ensures Lookup(j.members, "message") == Some(MessageToDict(r.message))
    ensures Lookup(j.members, "parsed_output") == Some(r.parsedOutput)
  {
    var ms := [Member("message", MessageToDict(r.message)), Member("parsed_output", r.parsedOutput)];
    assert ms[1..][0].key == "parsed_output";
    Obj(ms)
  }

  /** Reading a response back from a dict with the two keys `to_dict`
      writes. */
  function ResponseFromDict(j: Json): Option<ChatResponse> {
    if !j.Obj? then None
    else
      var message := Lookup(j.members, "message");
      var out := Lookup(j.members, "parsed_output");
      if message.None? || out.None? then None
      else match MessageFromDict(message.value)
        case None => None
        case Some(m) => Some(ChatResponse(m, out.value))
  }

  /** `to_dict` nests the message's own dict and keeps the parsed output. */
  lemma ResponseDictRoundTrip(r: ChatResponse)
    ensures ResponseFromDict(ResponseToDict(r)) == Some(r)
    ensures Lookup(ResponseToDict(r).members, "message") == Some(MessageToDict(r.message))
    ensures Lookup(ResponseToDict(r).members, "parsed_output") == Some(r.parsedOutput)
  {
    MessageDictRoundTrip(r.message);
    var ms := ResponseToDict(r).members;
    assert Lookup(ms, "message") == Some(MessageToDict(r.message));
    assert ms[1..][0].key == "parsed_output";
    assert Lookup(ms, "parsed_output") == Some(r.parsedOutput);
  }
}
