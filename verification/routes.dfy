/** The HTTP layer's conversion of request messages to domain messages:
    all or nothing, with status 422 for a role that is not a role. */
module Routes {
  import opened Results
  import opened JsonValue
  import opened Entities

  /** `MessageSchema`: the role is any string until it is checked. */
  datatype MessageSchema = MessageSchema(role: string, content: string, metadata: Option<seq<Member>>)

  /** `HTTPException(status_code, detail)`. */
  datatype HttpError = HttpError(status: nat, detail: string)

  const InvalidRoleStatus: nat := 422

  /** `f"Invalid message role: {str(e)}"` for the `ValueError` the enum
      raises on `role`. */
  function RoleErrorDetail(role: string): string {
    "Invalid message role: '" + role + "' is not a valid MessageRole"
  }

  /** The domain message a request message becomes once its role is known. */
  predicate Converted(m: MessageSchema, d: ChatMessage) {
    RoleValue(d.role) == m.role && d.content == m.content && d.metadata == m.metadata
  }

  /** Message `i` is the first whose role is not a role. */
  predicate FirstInvalid(messages: seq<MessageSchema>, i: int) {
    0 <= i < |messages| && ParseRole(messages[i].role).None?
    && forall j :: 0 <= j < i ==> ParseRole(messages[j].role).Some?
  }

  /** `_convert_to_domain_messages`: the messages in order, or the 422 for
      the first message whose role is not a role. */
  function ConvertToDomain(messages: seq<MessageSchema>): (r: Result<seq<ChatMessage>, HttpError>)
    ensures r.Ok? <==> forall i :: 0 <= i < |messages| ==> ParseRole(messages[i].role).Some?
    ensures r.Ok? ==> |r.value| == |messages|
    ensures r.Ok? ==> forall i :: 0 <= i < |messages| ==> Converted(messages[i], r.value[i])
    ensures r.Err? ==> r.error.status == InvalidRoleStatus
    ensures r.Err? ==> exists i :: FirstInvalid(messages, i) && r.error.detail == RoleErrorDetail(messages[i].role)
  {
    if |messages| == 0 then Ok([])
    else match ParseRole(messages[0].role)
      case None => Err(HttpError(InvalidRoleStatus, RoleErrorDetail(messages[0].role)))
      case Some(role) =>
        var rest :- ConvertToDomain(messages[1..]);
        Ok([ChatMessage(role, messages[0].content, messages[0].metadata)] + rest)
  }

  /** The request message a domain message is written back as, as the chat
      route does for the reply. */
  function ToSchema(m: ChatMessage): (s: MessageSchema)
    ensures Converted(s, m)
  {
    MessageSchema(RoleValue(m.role), m.content, m.metadata)
  }

  function ToSchemas(ms: seq<ChatMessage>): (r: seq<MessageSchema>)
    ensures |r| == |ms|
    ensures forall i :: 0 <= i < |ms| ==> r[i] == ToSchema(ms[i])
  {
    seq(|ms|, i requires 0 <= i < |ms| => ToSchema(ms[i]))
  }

  /** Domain messages written back as request messages convert to
      themselves. */
  lemma DomainRoundTrip(ms: seq<ChatMessage>)
    ensures ConvertToDomain(ToSchemas(ms)) == Ok(ms)
  {
    var r := ConvertToDomain(ToSchemas(ms));
    forall i | 0 <= i < |ms|
      ensures ParseRole(ToSchemas(ms)[i].role).Some?
    {
      RoleRoundTrip(ms[i].role);
    }
    assert r.Ok?;
    forall i | 0 <= i < |ms|
      ensures r.value[i] == ms[i]
    {
      RoleValuesDistinct(r.value[i].role, ms[i].role);
    }
    assert r.value == ms;
  }

  /** Converted messages written back are the request messages. */
  lemma SchemaRoundTrip(messages: seq<MessageSchema>)
    requires ConvertToDomain(messages).Ok?
    ensures ToSchemas(ConvertToDomain(messages).value) == messages
  {
  }
}
