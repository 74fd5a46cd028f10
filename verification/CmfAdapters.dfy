/**
  The CMF form that plugins edit, and the write-back of edited prompt and resource results
  into MCP results. Where an edit cannot be represented the adapter refuses it.
 */
module CmfAdapters {
  import opened Common
  import opened Json

  // ----- MCP results -----

  datatype McpRole = UserRole | AssistantRole

  /** `meta` stands for the `_meta` map of an item. */
  datatype ResourceContents =
    | TextContents(uri: string, mimeType: Option<string>, text: string, meta: Option<Json>)
    | BlobContents(uri: string, mimeType: Option<string>, blob: string, meta: Option<Json>)
    | UnknownContents(raw: Json)

  /**
    `extra` stands for what CMF cannot carry: the annotations and `_meta` of a block and, for a link, its title,
    description, MIME type and size.
   */
  datatype ContentBlock =
    | TextBlock(text: string, extra: Option<Json>)
    | ImageBlock(data: string, mimeType: string, extra: Option<Json>)
    | AudioBlock(data: string, mimeType: string, extra: Option<Json>)
    | ResourceBlock(resource: ResourceContents, extra: Option<Json>)
    | LinkBlock(uri: string, name: string, extra: Option<Json>)
    | UnknownBlock(raw: Json)

  datatype PromptMessage = PromptMessage(role: McpRole, content: ContentBlock)

  /** `envelope` stands for the description, `_meta` and every other field besides the messages. */
  datatype GetPromptResult = GetPromptResult(messages: seq<PromptMessage>, envelope: Json)

  datatype ReadResourceResult = ReadResourceResult(contents: seq<ResourceContents>, envelope: Json)

  datatype CallToolResult = CallToolResult(
    content: seq<ContentBlock>,
    structured: Option<Json>,
    isError: Option<bool>,
    meta: Option<Json>)

  // ----- CMF payloads -----

  datatype CmfRole = User | Assistant | System | Developer | ToolRole

  datatype ResourceType = Uri | OtherResourceType(name: string)

  /** `details` stands for name, description, size, annotations and version. */
  datatype CmfResource = CmfResource(
    requestId: string,
    uri: string,
    resourceType: ResourceType,
    content: Option<string>,
    blob: Option<seq<bv8>>,
    mimeType: Option<string>,
    details: Option<Json>)

  datatype MediaSource = MediaSource(
    sourceType: string, data: string, mediaType: Option<string>, durationMs: Option<nat>)

  /** `selection` stands for the range and the selector of a reference. */
  datatype ResourceReference = ResourceReference(
    requestId: string,
    uri: string,
    name: Option<string>,
    resourceType: ResourceType,
    selection: Option<Json>)

  datatype ContentPart =
    | TextPart(text: string)
    | ImagePart(image: MediaSource)
    | AudioPart(audio: MediaSource)
    | ResourcePart(resource: CmfResource)
    | ReferencePart(reference: ResourceReference)
    | PromptRequestPart(request: PromptRequest)
    | PromptResultPart(result: PromptResult)
    | ToolResultPart(toolResult: ToolResult)
    | UnknownPart(raw: Json)

  datatype Message = Message(schemaVersion: string, role: CmfRole, content: seq<ContentPart>, channel: Option<string>)

  datatype PromptRequest = PromptRequest(
    requestId: string,
    name: string,
    arguments: map<string, Json>,
    serverId: Option<string>)

  datatype PromptResult = PromptResult(
    requestId: string,
    promptName: string,
    messages: seq<Message>,
    content: Option<string>,
    isError: bool,
    errorMessage: Option<string>)

  datatype ToolResult = ToolResult(toolCallId: string, toolName: string, content: Json, isError: bool)

  datatype AdapterError = Rejected(message: string) | CannotApply

  const SCHEMA_VERSION := "2.0"
  const INLINE := "base64"

  function Payload(role: CmfRole, content: seq<ContentPart>): Message { Message(SCHEMA_VERSION, role, content, None) }

  // ----- Prompt results -----

  function CmfPart(block: ContentBlock, id: string): Option<ContentPart> {
    match block
    case TextBlock(text, _) => Some(TextPart(text))
    case ImageBlock(data, mimeType, _) => Some(ImagePart(MediaSource(INLINE, data, Some(mimeType), None)))
    case AudioBlock(data, mimeType, _) => Some(AudioPart(MediaSource(INLINE, data, Some(mimeType), None)))
    case ResourceBlock(TextContents(uri, mimeType, text, _), _) =>
      Some(ResourcePart(CmfResource(id, uri, Uri, Some(text), None, mimeType, None)))
    case ResourceBlock(BlobContents(uri, mimeType, _, _), _) =>
      Some(ResourcePart(CmfResource(id, uri, Uri, None, None, mimeType, None)))
    case ResourceBlock(UnknownContents(_), _) => None
    case LinkBlock(uri, name, _) => Some(ReferencePart(ResourceReference(id, uri, Some(name), Uri, None)))
    case UnknownBlock(_) => None
  }

  function CmfPromptMessage(message: PromptMessage, id: string): Message {
    var part := CmfPart(message.content, id);
    Message(SCHEMA_VERSION, if message.role == AssistantRole then Assistant else User,
            if part.Some? then [part.value] else [], None)
  }

  function ProjectedMessages(messages: seq<PromptMessage>, id: string): (r: seq<Message>)
    ensures |r| == |messages|
  {
    seq(|messages|, i requires 0 <= i < |messages| => CmfPromptMessage(messages[i], id))
  }

  function PromptResultPayload(response: GetPromptResult, name: string, id: string): Message {
    Payload(Assistant,
            [PromptResultPart(PromptResult(id, name, ProjectedMessages(response.messages, id), None, false, None))])
  }

  function PromptResults(content: seq<ContentPart>): seq<PromptResult> {
    if content == [] then []
    else
      var last := content[|content| - 1];
      PromptResults(content[..|content| - 1]) + if last.PromptResultPart? then [last.result] else []
  }

  /** The payload's prompt result, if it has exactly one. */
  function OnlyPromptResult(payload: Message): Option<PromptResult> {
    var results := PromptResults(payload.content);
    if |results| == 1 then Some(results[0]) else None
  }

  const REJECTED_PROMPT := "Plugin rejected the rendered prompt"

  /** The plugin set the error flag of the prompt result, which MCP prompts do not have. */
  predicate IsRejection(payload: Message) {
    OnlyPromptResult(payload).Some? && OnlyPromptResult(payload).value.isError
  }

  function InlineData(source: MediaSource): Option<string> {
    if source.sourceType == INLINE then Some(source.data) else None
  }

  function McpBlock(part: ContentPart): Option<ContentBlock> {
    match part
    case TextPart(text) => Some(TextBlock(text, None))
    case ImagePart(image) =>
      if InlineData(image).None? || image.mediaType.None? then None
      else Some(ImageBlock(InlineData(image).value, image.mediaType.value, None))
    case AudioPart(audio) =>
      if InlineData(audio).None? || audio.mediaType.None? then None
      else Some(AudioBlock(InlineData(audio).value, audio.mediaType.value, None))
    case ResourcePart(resource) =>
      if resource.content.None? then None
      else Some(ResourceBlock(TextContents(resource.uri, resource.mimeType, resource.content.value, None), None))
    case ReferencePart(reference) =>
      if reference.name.None? then None else Some(LinkBlock(reference.uri, reference.name.value, None))
    case _ => None
  }

  function McpPromptMessage(message: Message): Option<PromptMessage> {
    var role := match message.role case Assistant => Some(AssistantRole) case User => Some(UserRole) case _ => None;
    if role.None? || |message.content| != 1 then None
    else
      match McpBlock(message.content[0])
      case None => None
      case Some(block) => Some(PromptMessage(role.value, block))
  }

  /** One message after its edit: itself if unedited, else rebuilt if the rebuilt form projects to the edit. */
  function WrittenMessage(original: PromptMessage, edited: Message, id: string): Option<PromptMessage> {
    if CmfPromptMessage(original, id) == edited then Some(original)
    else
      match McpPromptMessage(edited)
      case None => None
      case Some(rebuilt) => if CmfPromptMessage(rebuilt, id) == edited then Some(rebuilt) else None
  }

  /** CMF carries all of the block that MCP needs to show: text, inline media, text resources and links. */
  predicate Carried(block: ContentBlock) {
    match block
    case ResourceBlock(resource, _) => resource.TextContents?
    case UnknownBlock(_) => false
    case _ => true
  }

  /** The edit is no edit, or the projection of a message that CMF carries. */
  ghost predicate Expressible(original: PromptMessage, edited: Message, id: string) {
    || CmfPromptMessage(original, id) == edited
    || exists m: PromptMessage :: Carried(m.content) && CmfPromptMessage(m, id) == edited
  }

  /** The edit changes messages only: same prompt, same request, same number of messages, nothing beside them. */
  predicate EditsMessagesOnly(original: GetPromptResult, payload: Message, name: string, id: string) {
    var found := OnlyPromptResult(payload);
    && found.Some?
    && found.value.promptName == name && found.value.requestId == id
    && found.value.content.None? && found.value.errorMessage.None?
    && |found.value.messages| == |original.messages|
  }

  lemma WrittenIffExpressible(original: PromptMessage, edited: Message, id: string)
    ensures WrittenMessage(original, edited, id).Some? <==> Expressible(original, edited, id)
    ensures WrittenMessage(original, edited, id).Some? ==>
              CmfPromptMessage(WrittenMessage(original, edited, id).value, id) == edited
  {
    forall m: PromptMessage | Carried(m.content) && CmfPromptMessage(m, id) == edited
      ensures WrittenMessage(original, edited, id).Some?
    {
      RebuildsCarried(m, id);
    }
    if CmfPromptMessage(original, id) != edited && WrittenMessage(original, edited, id).Some? {
      assert Carried(McpPromptMessage(edited).value.content);
    }
  }

  lemma RebuildsCarried(m: PromptMessage, id: string)
    requires Carried(m.content)
    ensures var rebuilt := McpPromptMessage(CmfPromptMessage(m, id));
            rebuilt.Some? && CmfPromptMessage(rebuilt.value, id) == CmfPromptMessage(m, id)
  {
  }

  /** The result of writing a payload back, message by message. */
  function Written(original: GetPromptResult, payload: Message, name: string, id: string): Option<GetPromptResult> {
    if !EditsMessagesOnly(original, payload, name, id) then None
    else
      var edited := OnlyPromptResult(payload).value.messages;
      if exists i | 0 <= i < |edited| :: WrittenMessage(original.messages[i], edited[i], id).None? then None
      else
        Some(original.(messages := seq(|edited|, i requires 0 <= i < |edited| =>
                                                   WrittenMessage(original.messages[i], edited[i], id).value)))
  }

  method PromptResultResponse(original: GetPromptResult, payload: Message, name: string, id: string)
      returns (r: Option<GetPromptResult>)
    ensures r == Written(original, payload, name, id)
  {
    var found := OnlyPromptResult(payload);
    if found.None? {
      return None;
    }
    var result := found.value;
    if result.promptName != name || result.requestId != id || result.content.Some? || result.errorMessage.Some? {
      return None;
    }
    if |result.messages| != |original.messages| {
      return None;
    }
    var messages := original.messages;
    for i := 0 to |messages|
      invariant |messages| == |original.messages| && messages[i..] == original.messages[i..]
      invariant forall k | 0 <= k < i ::
                  Some(messages[k]) == WrittenMessage(original.messages[k], result.messages[k], id)
    {
      assert messages[i] == messages[i..][0] == original.messages[i];
      var edited := result.messages[i];
      if CmfPromptMessage(messages[i], id) == edited {
        continue;
      }
      var rebuilt := McpPromptMessage(edited);
      if rebuilt.None? || CmfPromptMessage(rebuilt.value, id) != edited {
        assert WrittenMessage(original.messages[i], result.messages[i], id).None?;
        return None;
      }
      messages := messages[i := rebuilt.value];
    }
    r := Some(original.(messages := messages));
    assert messages == Written(original, payload, name, id).value.messages;
  }

  /** A rejection by the plugin comes first; then the edit is applied or refused, never dropped. */
  method ApplyPromptPayload(original: GetPromptResult, payload: Message, name: string, id: string)
      returns (r: Result<GetPromptResult, AdapterError>)
    ensures r.Err? && r.error.Rejected? <==> IsRejection(payload)
    ensures IsRejection(payload) ==>
              var result := OnlyPromptResult(payload).value;
              r.error.message == if result.errorMessage.Some? then result.errorMessage.value else REJECTED_PROMPT
    ensures r.Ok? <==> Written(original, payload, name, id).Some? && !IsRejection(payload)
    ensures r.Ok? ==> Written(original, payload, name, id) == Some(r.value)
  {
    var found := OnlyPromptResult(payload);
    if found.Some? && found.value.isError {
      return Err(Rejected(if found.value.errorMessage.Some? then found.value.errorMessage.value else REJECTED_PROMPT));
    }
    var written := PromptResultResponse(original, payload, name, id);
    r := if written.Some? then Ok(written.value) else Err(CannotApply);
  }

  /** Write-back succeeds exactly on edits of the messages that an MCP message can express. */
  lemma WrittenIff(original: GetPromptResult, payload: Message, name: string, id: string)
    ensures Written(original, payload, name, id).Some?
            <==> && EditsMessagesOnly(original, payload, name, id)
                 && forall i | 0 <= i < |original.messages| ::
                      Expressible(original.messages[i], OnlyPromptResult(payload).value.messages[i], id)
  {
    if EditsMessagesOnly(original, payload, name, id) {
      forall i | 0 <= i < |original.messages| {
        WrittenIffExpressible(original.messages[i], OnlyPromptResult(payload).value.messages[i], id);
      }
    }
  }

  lemma OnlyPart(content: seq<ContentPart>)
    requires |content| == 1
    ensures content[0].PromptResultPart? ==> PromptResults(content) == [content[0].result]
    ensures content[0].PromptRequestPart? ==> PromptRequests(content) == [content[0].request]
    ensures content[0].ToolResultPart? ==> ToolResults(content) == [content[0].toolResult]
  {
    var rest := content[..|content| - 1];
    assert rest == [];
    assert PromptResults(rest) == [] && PromptRequests(rest) == [] && ToolResults(rest) == [];
  }

  lemma OwnPromptResult(response: GetPromptResult, name: string, id: string)
    ensures OnlyPromptResult(PromptResultPayload(response, name, id))
            == Some(PromptResult(id, name, ProjectedMessages(response.messages, id), None, false, None))
  {
    OnlyPart(PromptResultPayload(response, name, id).content);
  }

  /** Writing back the unedited projection returns the original, with all that CMF cannot carry. */
  lemma UneditedPromptIsKept(original: GetPromptResult, name: string, id: string)
    ensures Written(original, PromptResultPayload(original, name, id), name, id) == Some(original)
  {
    OwnPromptResult(original, name, id);
    var edited := ProjectedMessages(original.messages, id);
    forall i | 0 <= i < |edited|
      ensures WrittenMessage(original.messages[i], edited[i], id) == Some(original.messages[i])
    {
    }
    assert Written(original, PromptResultPayload(original, name, id), name, id).value.messages == original.messages;
  }

  /** What was written back projects to exactly what the plugin returned; the rest of the result is untouched. */
  lemma WrittenPromptProjects(original: GetPromptResult, payload: Message, name: string, id: string)
    requires Written(original, payload, name, id).Some? && !OnlyPromptResult(payload).value.isError
    ensures var result := Written(original, payload, name, id).value;
            && OnlyPromptResult(PromptResultPayload(result, name, id)) == OnlyPromptResult(payload)
            && result.envelope == original.envelope && |result.messages| == |original.messages|
  {
    var result, edited := Written(original, payload, name, id).value, OnlyPromptResult(payload).value.messages;
    OwnPromptResult(result, name, id);
    forall i | 0 <= i < |edited| ensures CmfPromptMessage(result.messages[i], id) == edited[i] {
      WrittenIffExpressible(original.messages[i], edited[i], id);
    }
    assert ProjectedMessages(result.messages, id) == edited;
  }

  /** Writing the same payload back again changes nothing. */
  lemma PromptWriteIsStable(original: GetPromptResult, payload: Message, name: string, id: string)
    requires Written(original, payload, name, id).Some?
    ensures Written(Written(original, payload, name, id).value, payload, name, id)
            == Written(original, payload, name, id)
  {
    var result, edited := Written(original, payload, name, id).value, OnlyPromptResult(payload).value.messages;
    forall i | 0 <= i < |edited| ensures WrittenMessage(result.messages[i], edited[i], id) == Some(result.messages[i]) {
      WrittenIffExpressible(original.messages[i], edited[i], id);
    }
    assert Written(result, payload, name, id).value.messages == result.messages;
  }

  // ----- Two edits in a row -----

  /** CMF carries everything there is: no annotations, no `_meta`, no further fields of a link, and no bytes. */
  predicate Plain(block: ContentBlock) {
    match block
    case TextBlock(_, extra) => extra.None?
    case ImageBlock(_, _, extra) => extra.None?
    case AudioBlock(_, _, extra) => extra.None?
    case ResourceBlock(resource, extra) => resource.TextContents? && resource.meta.None? && extra.None?
    case LinkBlock(_, _, extra) => extra.None?
    case UnknownBlock(_) => false
  }

  /** The second edit takes the first one back. */
  predicate Undoes(original: PromptMessage, first: Message, second: Message, id: string) {
    first != second && CmfPromptMessage(original, id) == second
  }

  /** Only a plain message survives being rebuilt from its projection. */
  lemma PlainIffRebuilt(m: PromptMessage, id: string)
    ensures Plain(m.content) <==> McpPromptMessage(CmfPromptMessage(m, id)) == Some(m)
  {
  }

  /** Two edits of one message amount to the second exactly if it does not undo the first, or nothing can be lost. */
  lemma EditsComposeIff(original: PromptMessage, first: Message, second: Message, id: string)
    requires WrittenMessage(original, first, id).Some?
    ensures WrittenMessage(WrittenMessage(original, first, id).value, second, id)
            == WrittenMessage(original, second, id)
            <==> (Undoes(original, first, second, id) ==> Plain(original.content))
  {
    PlainIffRebuilt(original, id);
    WrittenIffExpressible(original, first, id);
  }

  /**
    Writing one payload and then another amounts to writing the second exactly if the second cannot be written at
    all, or every message whose edit it undoes is plain.
   */
  lemma PromptEditsComposeIff(original: GetPromptResult, first: Message, second: Message, name: string, id: string)
    requires Written(original, first, name, id).Some?
    ensures Written(Written(original, first, name, id).value, second, name, id) == Written(original, second, name, id)
            <==> (Written(original, second, name, id).Some? ==>
                    forall i | 0 <= i < |original.messages| ::
                      Undoes(original.messages[i], OnlyPromptResult(first).value.messages[i],
                             OnlyPromptResult(second).value.messages[i], id)
                      ==> Plain(original.messages[i].content))
  {
    var between := Written(original, first, name, id).value;
    assert EditsMessagesOnly(between, second, name, id) <==> EditsMessagesOnly(original, second, name, id);
    if EditsMessagesOnly(original, second, name, id) {
      var edits, undos := OnlyPromptResult(first).value.messages, OnlyPromptResult(second).value.messages;
      forall i | 0 <= i < |original.messages|
        ensures WrittenMessage(between.messages[i], undos[i], id) == WrittenMessage(original.messages[i], undos[i], id)
                <==> (Undoes(original.messages[i], edits[i], undos[i], id) ==> Plain(original.messages[i].content))
        ensures WrittenMessage(original.messages[i], undos[i], id).None? ==>
                  WrittenMessage(between.messages[i], undos[i], id).None?
      {
        EditsComposeIff(original.messages[i], edits[i], undos[i], id);
      }
      WrittenAgreeIff(between, original, second, name, id);
    }
  }

  /** Where the second original can be written, the two agree exactly if they agree message by message. */
  lemma WrittenAgreeIff(a: GetPromptResult, b: GetPromptResult, payload: Message, name: string, id: string)
    requires EditsMessagesOnly(a, payload, name, id) && EditsMessagesOnly(b, payload, name, id)
    requires a.envelope == b.envelope
    ensures Written(b, payload, name, id).Some? ==>
              (Written(a, payload, name, id) == Written(b, payload, name, id)
               <==> forall i | 0 <= i < |b.messages| ::
                      WrittenMessage(a.messages[i], OnlyPromptResult(payload).value.messages[i], id)
                      == WrittenMessage(b.messages[i], OnlyPromptResult(payload).value.messages[i], id))
  {
    var edited := OnlyPromptResult(payload).value.messages;
    if Written(a, payload, name, id).Some? && Written(b, payload, name, id).Some? {
      var x, y := Written(a, payload, name, id).value, Written(b, payload, name, id).value;
      forall i | 0 <= i < |edited|
        ensures Some(x.messages[i]) == WrittenMessage(a.messages[i], edited[i], id)
        ensures Some(y.messages[i]) == WrittenMessage(b.messages[i], edited[i], id)
      {
      }
      if forall i | 0 <= i < |edited| :: x.messages[i] == y.messages[i] {
        assert x.messages == y.messages;
      }
    }
  }

  /** So an edit that is undone loses the annotations of a block, while the undo alone would have kept them. */
  lemma EditThenUndoLosesExtra(text: string, other: string, extra: Json, id: string)
    requires text != other
    ensures var original := PromptMessage(UserRole, TextBlock(text, Some(extra)));
            var undo := CmfPromptMessage(original, id);
            var edited := CmfPromptMessage(PromptMessage(UserRole, TextBlock(other, None)), id);
            var between := WrittenMessage(original, edited, id);
            && between.Some? && WrittenMessage(original, undo, id) == Some(original)
            && WrittenMessage(between.value, undo, id) == Some(PromptMessage(UserRole, TextBlock(text, None)))
  {
    var original := PromptMessage(UserRole, TextBlock(text, Some(extra)));
    var undo := CmfPromptMessage(original, id);
    var edited := CmfPromptMessage(PromptMessage(UserRole, TextBlock(other, None)), id);
    assert edited.content[0] == TextPart(other) && undo.content[0] == TextPart(text);
    EditsComposeIff(original, edited, undo, id);
  }

  // ----- Request arguments -----

  datatype ArgumentsUpdate = Unchanged | Replace(arguments: Option<map<string, Json>>)

  function OrEmpty(arguments: Option<map<string, Json>>): map<string, Json> {
    if arguments.Some? then arguments.value else map[]
  }

  function FromModified(original: Option<map<string, Json>>, modified: map<string, Json>): ArgumentsUpdate {
    if original == Some(modified) || (original.None? && modified == map[]) then Unchanged
    else Replace(Some(modified))
  }

  class RoutedRequest {
    var arguments: Option<map<string, Json>>

    method ApplyUpdate(update: ArgumentsUpdate)
      modifies this
      ensures arguments == if update.Replace? then update.arguments else old(arguments)
    {
      if update.Replace? {
        arguments := update.arguments;
      }
    }

    /** The request ends up with the modified arguments, and is untouched if they say the same as before. */
    method ApplyModified(modified: map<string, Json>)
      modifies this
      ensures OrEmpty(arguments) == modified
      ensures OrEmpty(old(arguments)) == modified <==> arguments == old(arguments)
    {
      ApplyUpdate(FromModified(arguments, modified));
    }
  }

  function PromptRequestPayload(arguments: Option<map<string, Json>>, name: string,
                                backend: string, id: string): Message
  {
    Payload(User, [PromptRequestPart(PromptRequest(id, name, OrEmpty(arguments), Some(backend)))])
  }

  function PromptRequests(content: seq<ContentPart>): seq<PromptRequest> {
    if content == [] then []
    else
      var last := content[|content| - 1];
      PromptRequests(content[..|content| - 1]) + if last.PromptRequestPart? then [last.request] else []
  }

  /** The edited arguments, unless the plugin touched anything else of the request. */
  function PromptRequestArguments(payload: Message, name: string, backend: string, id: string)
      : Option<map<string, Json>>
  {
    var requests := PromptRequests(payload.content);
    if |requests| != 1 then None
    else if requests[0].name != name || requests[0].requestId != id || requests[0].serverId != Some(backend) then None
    else Some(requests[0].arguments)
  }

  /** An unedited request leaves the arguments as they were; an edit of the arguments alone is what is sent. */
  lemma PromptRequestRoundTrip(arguments: Option<map<string, Json>>, edited: map<string, Json>, name: string,
                               backend: string, id: string)
    ensures var projected := PromptRequestArguments(PromptRequestPayload(arguments, name, backend, id),
                                                   name, backend, id);
            projected.Some? && FromModified(arguments, projected.value) == Unchanged
    ensures PromptRequestArguments(PromptRequestPayload(Some(edited), name, backend, id), name, backend, id)
            == Some(edited)
  {
    OnlyPart(PromptRequestPayload(arguments, name, backend, id).content);
    OnlyPart(PromptRequestPayload(Some(edited), name, backend, id).content);
  }

  // ----- Resource results -----

  /** The library's Base64, with the law that decoding undoes encoding (section 4 of RFC 4648). */
  datatype Base64 = Base64(decode: string -> Option<seq<bv8>>, encode: seq<bv8> -> string) {
    ghost predicate Lawful() { forall bytes :: decode(encode(bytes)) == Some(bytes) }
  }

  function CmfResourceContent(contents: ResourceContents, id: string, base64: Base64): Option<CmfResource> {
    match contents
    case TextContents(uri, mimeType, text, _) => Some(CmfResource(id, uri, Uri, Some(text), None, mimeType, None))
    case BlobContents(uri, mimeType, blob, _) =>
      (match base64.decode(blob)
       case None => None
       case Some(bytes) => Some(CmfResource(id, uri, Uri, None, Some(bytes), mimeType, None)))
    case UnknownContents(_) => None
  }

  function ResourceResultPayload(response: ReadResourceResult, id: string, base64: Base64): Option<Message> {
    if exists i | 0 <= i < |response.contents| :: CmfResourceContent(response.contents[i], id, base64).None? then None
    else
      Some(Payload(Assistant,
                   seq(|response.contents|, i requires 0 <= i < |response.contents| =>
                         ResourcePart(CmfResourceContent(response.contents[i], id, base64).value))))
  }

  /** One item after its edit: text wins; unchanged bytes keep their wire form; `_meta` stays. */
  function WrittenContents(original: ResourceContents, part: ContentPart, base64: Base64): Option<ResourceContents> {
    if !part.ResourcePart? || original.UnknownContents? then None
    else
      var edited := part.resource;
      if edited.content.Some? then Some(TextContents(edited.uri, edited.mimeType, edited.content.value, original.meta))
      else if edited.blob.None? then None
      else
        var blob := if original.BlobContents? && base64.decode(original.blob) == edited.blob then original.blob
                    else base64.encode(edited.blob.value);
        Some(BlobContents(edited.uri, edited.mimeType, blob, original.meta))
  }

  /** `result` is the original with each item written back, and nothing else changed. */
  predicate IsWritten(result: ReadResourceResult, original: ReadResourceResult, payload: Message, base64: Base64) {
    && result.envelope == original.envelope
    && |result.contents| == |original.contents| == |payload.content|
    && forall i | 0 <= i < |original.contents| ::
         Some(result.contents[i]) == WrittenContents(original.contents[i], payload.content[i], base64)
  }

  method ResourceResultResponse(original: ReadResourceResult, payload: Message, base64: Base64)
      returns (r: Option<ReadResourceResult>)
    ensures r.Some? <==>
              && |payload.content| == |original.contents|
              && forall i | 0 <= i < |original.contents| ::
                   WrittenContents(original.contents[i], payload.content[i], base64).Some?
    ensures r.Some? ==> IsWritten(r.value, original, payload, base64)
  {
    if |payload.content| != |original.contents| {
      return None;
    }
    var contents := original.contents;
    for i := 0 to |contents|
      invariant |contents| == |original.contents| && contents[i..] == original.contents[i..]
      invariant forall k | 0 <= k < i ::
                  Some(contents[k]) == WrittenContents(original.contents[k], payload.content[k], base64)
    {
      assert contents[i] == contents[i..][0] == original.contents[i];
      var item, part := contents[i], payload.content[i];
      if !part.ResourcePart? || item.UnknownContents? {
        return None;
      }
      var edited, meta := part.resource, item.meta;
      if edited.content.Some? {
        contents := contents[i := TextContents(edited.uri, edited.mimeType, edited.content.value, meta)];
      } else if edited.blob.Some? {
        var blob: string;
        if item.BlobContents? && base64.decode(item.blob) == Some(edited.blob.value) {
          blob := item.blob;
        } else {
          blob := base64.encode(edited.blob.value);
        }
        contents := contents[i := BlobContents(edited.uri, edited.mimeType, blob, meta)];
      } else {
        return None;
      }
    }
    r := Some(original.(contents := contents));
  }

  /** An unedited item comes back exactly, down to its Base64 wire form. */
  lemma UneditedContentsKept(original: ResourceContents, id: string, base64: Base64)
    requires CmfResourceContent(original, id, base64).Some?
    ensures WrittenContents(original, ResourcePart(CmfResourceContent(original, id, base64).value), base64)
            == Some(original)
  {
  }

  /** An applied edit keeps the item's `_meta` and projects to the edited uri, type and content, text first. */
  lemma WrittenContentsProject(original: ResourceContents, part: ContentPart, id: string, base64: Base64)
    requires base64.Lawful() && WrittenContents(original, part, base64).Some?
    ensures var result := WrittenContents(original, part, base64).value;
            && !result.UnknownContents? && result.meta == original.meta
            && CmfResourceContent(result, id, base64)
               == Some(CmfResource(id, part.resource.uri, Uri, part.resource.content,
                                   if part.resource.content.Some? then None else part.resource.blob,
                                   part.resource.mimeType, None))
  {
  }

  /** What CMF keeps of an edited part once it is written back: uri, type, and text before bytes. */
  function Kept(part: ContentPart, id: string): ContentPart
    requires part.ResourcePart?
  {
    var edited := part.resource;
    ResourcePart(CmfResource(id, edited.uri, Uri, edited.content, if edited.content.Some? then None else edited.blob,
                             edited.mimeType, None))
  }

  /** A written result always projects again, and to the edited parts as CMF keeps them. */
  lemma WrittenResourceProjects(result: ReadResourceResult, original: ReadResourceResult, payload: Message, id: string,
                                base64: Base64)
    requires base64.Lawful() && IsWritten(result, original, payload, base64)
    ensures var projected := ResourceResultPayload(result, id, base64);
            && projected.Some? && |projected.value.content| == |payload.content|
            && forall i | 0 <= i < |payload.content| ::
                 payload.content[i].ResourcePart? && projected.value.content[i] == Kept(payload.content[i], id)
  {
    forall i | 0 <= i < |result.contents|
      ensures payload.content[i].ResourcePart?
      ensures CmfResourceContent(result.contents[i], id, base64) == Some(Kept(payload.content[i], id).resource)
    {
      WrittenContentsProject(original.contents[i], payload.content[i], id, base64);
    }
  }

  /** The whole round trip of a resource result through the plugins, unedited. */
  method UneditedResourceResult(original: ReadResourceResult, id: string, base64: Base64)
      returns (payload: Option<Message>, result: Option<ReadResourceResult>)
    ensures payload == ResourceResultPayload(original, id, base64)
    ensures payload.Some? ==> result == Some(original)
  {
    payload, result := ResourceResultPayload(original, id, base64), None;
    if payload.Some? {
      forall i | 0 <= i < |original.contents|
        ensures WrittenContents(original.contents[i], payload.value.content[i], base64) == Some(original.contents[i])
      {
        UneditedContentsKept(original.contents[i], id, base64);
      }
      result := ResourceResultResponse(original, payload.value, base64);
      assert result.value.contents == original.contents;
    }
  }

  // ----- Tool results -----

  /**
    Library steps: JSON encoding and decoding of a tool result, a result around a structured value, and the text of
    a CMF message.
   */
  datatype ToolCodec = ToolCodec(
    encode: CallToolResult -> Json,
    decode: Json -> Option<CallToolResult>,
    structured: (Json, bool) -> CallToolResult,
    textOf: Message -> string)
  {
    ghost predicate Lawful() {
      && (forall result :: decode(encode(result)) == Some(result))
      && (forall value, isError :: structured(value, isError).isError == Some(isError))
      && forall message: Message | (forall i | 0 <= i < |message.content| :: !message.content[i].TextPart?) ::
           textOf(message) == ""
    }
  }

  function ToolResultPayload(response: CallToolResult, name: string, id: string, codec: ToolCodec): Message {
    Payload(ToolRole, [ToolResultPart(ToolResult(id, name, codec.encode(response), response.isError == Some(true)))])
  }

  function ToolResults(content: seq<ContentPart>): seq<ToolResult> {
    if content == [] then []
    else
      var last := content[|content| - 1];
      ToolResults(content[..|content| - 1]) + if last.ToolResultPart? then [last.toolResult] else []
  }

  function RawToolResult(value: Json, isError: bool, codec: ToolCodec): CallToolResult {
    match value
    case String(text) => CallToolResult([TextBlock(text, None)], None, Some(isError), None)
    case _ => codec.structured(value, isError)
  }

  /** The first tool result of the payload as an MCP result. */
  function FromToolResult(edited: ToolResult, codec: ToolCodec): CallToolResult {
    match codec.decode(edited.content)
    case Some(result) => result.(isError := Some(edited.isError))
    case None => RawToolResult(edited.content, edited.isError, codec)
  }

  function WithText(result: CallToolResult, text: string): CallToolResult {
    if text == "" then result else result.(content := result.content + [TextBlock(text, None)])
  }

  function WrittenToolResult(original: CallToolResult, payload: Message, codec: ToolCodec): CallToolResult {
    var edited := ToolResults(payload.content);
    WithText(if edited == [] then original else FromToolResult(edited[0], codec), codec.textOf(payload))
  }

  /** With a tool result in the payload its flag wins, without one the response stays; text goes last. */
  method ToolResultResponse(original: CallToolResult, payload: Message, codec: ToolCodec)
      returns (result: CallToolResult)
    ensures ToolResults(payload.content) == [] ==>
              && original.content <= result.content && result.isError == original.isError
              && result.structured == original.structured && result.meta == original.meta
    ensures ToolResults(payload.content) != [] && codec.Lawful() ==>
              result.isError == Some(ToolResults(payload.content)[0].isError)
    ensures ToolResults(payload.content) != [] ==>
              var edited := ToolResults(payload.content)[0];
              && (codec.decode(edited.content).Some? ==>
                    && codec.decode(edited.content).value.content <= result.content
                    && result.structured == codec.decode(edited.content).value.structured
                    && result.meta == codec.decode(edited.content).value.meta)
              && (codec.decode(edited.content).None? && edited.content.String? ==>
                    [TextBlock(edited.content.s, None)] <= result.content && result.isError == Some(edited.isError))
              && (codec.decode(edited.content).None? && !edited.content.String? ==>
                    codec.structured(edited.content, edited.isError).content <= result.content)
    ensures codec.textOf(payload) != "" ==>
              result.content != [] && result.content[|result.content| - 1] == TextBlock(codec.textOf(payload), None)
    ensures result == WrittenToolResult(original, payload, codec)
  {
    var edited := ToolResults(payload.content);
    result := original;
    if edited != [] {
      var decoded := codec.decode(edited[0].content);
      match decoded
      case Some(value) => result := value.(isError := Some(edited[0].isError));
      case None => result := RawToolResult(edited[0].content, edited[0].isError, codec);
    }
    var text := codec.textOf(payload);
    if text != "" {
      result := result.(content := result.content + [TextBlock(text, None)]);
    }
  }

  /** The backend's response is out of the result exactly if the plugin's payload has a tool result of its own. */
  lemma OriginalIsReplacedIff(payload: Message, codec: ToolCodec)
    ensures (forall a, b :: WrittenToolResult(a, payload, codec) == WrittenToolResult(b, payload, codec))
            <==> ToolResults(payload.content) != []
  {
    if ToolResults(payload.content) == [] {
      var a, b := CallToolResult([], None, None, None), CallToolResult([], None, Some(true), None);
      assert WrittenToolResult(a, payload, codec).isError != WrittenToolResult(b, payload, codec).isError;
    }
  }

  /** Whatever the backend sent goes out untouched exactly if the payload has neither a tool result nor text. */
  lemma OriginalFallsThroughIff(payload: Message, codec: ToolCodec)
    ensures (forall original :: WrittenToolResult(original, payload, codec) == original)
            <==> ToolResults(payload.content) == [] && codec.textOf(payload) == ""
  {
    OriginalIsReplacedIff(payload, codec);
    var a, b := CallToolResult([], None, None, None), CallToolResult([], None, Some(true), None);
    if codec.textOf(payload) != "" && ToolResults(payload.content) == [] {
      assert |WrittenToolResult(a, payload, codec).content| == 1;
    }
    if ToolResults(payload.content) != [] {
      assert WrittenToolResult(a, payload, codec) == WrittenToolResult(b, payload, codec);
    }
  }

  /** The input: a plugin that takes the tool result out of its payload gets the backend's response sent on. */
  lemma RemovedToolResultFallsThrough(original: CallToolResult, codec: ToolCodec)
    requires codec.Lawful()
    ensures WrittenToolResult(original, Payload(ToolRole, []), codec) == original
  {
    OriginalFallsThroughIff(Payload(ToolRole, []), codec);
  }

  /** The payload's one tool result, under the call's name and id, is the encoding of a result with the same flag. */
  predicate RepresentsToolResult(payload: Message, name: string, id: string, codec: ToolCodec) {
    && |payload.content| == 1 && payload.content[0].ToolResultPart? && payload == Payload(ToolRole, payload.content)
    && var edited := payload.content[0].toolResult;
       && edited.toolCallId == id && edited.toolName == name
       && match codec.decode(edited.content)
          case None => false
          case Some(result) => result.isError == Some(edited.isError) && codec.encode(result) == edited.content
  }

  /** What is written for a tool result projects back to the plugin's payload exactly if that represents a result. */
  lemma ToolResultProjectsIff(original: CallToolResult, payload: Message, name: string, id: string, codec: ToolCodec)
    requires codec.Lawful()
    ensures ToolResultPayload(WrittenToolResult(original, payload, codec), name, id, codec) == payload
            <==> RepresentsToolResult(payload, name, id, codec)
  {
    var written := WrittenToolResult(original, payload, codec);
    if RepresentsToolResult(payload, name, id, codec) || ToolResultPayload(written, name, id, codec) == payload {
      OnlyPart(payload.content);
      var edited := payload.content[0].toolResult;
      assert forall i | 0 <= i < |payload.content| :: !payload.content[i].TextPart?;
      assert written == FromToolResult(edited, codec);
      assert written.isError == Some(edited.isError);
    }
  }

  /** The inputs that show it: a second tool result is dropped without an error. */
  lemma SecondToolResultIsDropped(original: CallToolResult, x: ToolResult, y: ToolResult, codec: ToolCodec)
    requires codec.Lawful()
    ensures WrittenToolResult(original, Payload(ToolRole, [ToolResultPart(x), ToolResultPart(y)]), codec)
            == WrittenToolResult(original, Payload(ToolRole, [ToolResultPart(x)]), codec)
  {
    var one, two := [ToolResultPart(x)], [ToolResultPart(x), ToolResultPart(y)];
    OnlyPart(one);
    assert two[..1] == one;
    assert ToolResults(two) == [x] + [y];
  }

  /** Writing back the unedited projection only makes the error flag explicit. */
  lemma UneditedToolResult(original: CallToolResult, name: string, id: string, codec: ToolCodec)
    requires codec.Lawful()
    ensures WrittenToolResult(original, ToolResultPayload(original, name, id, codec), codec)
            == original.(isError := Some(original.isError == Some(true)))
    ensures WrittenToolResult(original, ToolResultPayload(original, name, id, codec), codec) == original
            <==> original.isError.Some?
  {
    OnlyPart(ToolResultPayload(original, name, id, codec).content);
    match original.isError
    case None =>
    case Some(isError) => assert Some(original.isError == Some(true)) == original.isError;
  }

  // ----- The projections, spelled out -----

  /** Each block as CMF shows it: inline media as Base64 with its type, embedded bytes by address and type only. */
  lemma ProjectedBlocks(block: ContentBlock, id: string)
    ensures block.TextBlock? ==> CmfPart(block, id) == Some(TextPart(block.text))
    ensures block.ImageBlock? ==>
              CmfPart(block, id) == Some(ImagePart(MediaSource("base64", block.data, Some(block.mimeType), None)))
    ensures block.AudioBlock? ==>
              CmfPart(block, id) == Some(AudioPart(MediaSource("base64", block.data, Some(block.mimeType), None)))
    ensures block.ResourceBlock? && block.resource.TextContents? ==>
              var r := block.resource;
              CmfPart(block, id)
              == Some(ResourcePart(CmfResource(id, r.uri, Uri, Some(r.text), None, r.mimeType, None)))
    ensures block.ResourceBlock? && block.resource.BlobContents? ==>
              var r := block.resource;
              CmfPart(block, id) == Some(ResourcePart(CmfResource(id, r.uri, Uri, None, None, r.mimeType, None)))
    ensures block.LinkBlock? ==>
              CmfPart(block, id) == Some(ReferencePart(ResourceReference(id, block.uri, Some(block.name), Uri, None)))
    ensures CmfPart(block, id) == None
            <==> block.UnknownBlock? || (block.ResourceBlock? && block.resource.UnknownContents?)
  {
  }

  lemma ProjectedMessage(message: PromptMessage, id: string)
    ensures var projected := CmfPromptMessage(message, id);
            && projected.schemaVersion == "2.0" && projected.channel == None
            && (message.role == UserRole ==> projected.role == User)
            && (message.role == AssistantRole ==> projected.role == Assistant)
            && (CmfPart(message.content, id) == None ==> projected.content == [])
            && (CmfPart(message.content, id).Some? ==> projected.content == [CmfPart(message.content, id).value])
  {
  }

  /** Only Base64 media with a type, text resources, and named references can become a block again. */
  lemma RebuiltBlocks(part: ContentPart)
    ensures McpBlock(part).Some?
            <==> || part.TextPart?
                 || (part.ImagePart? && part.image.sourceType == "base64" && part.image.mediaType.Some?)
                 || (part.AudioPart? && part.audio.sourceType == "base64" && part.audio.mediaType.Some?)
                 || (part.ResourcePart? && part.resource.content.Some?)
                 || (part.ReferencePart? && part.reference.name.Some?)
    ensures part.TextPart? ==> McpBlock(part) == Some(TextBlock(part.text, None))
    ensures McpBlock(part).Some? && part.ImagePart? ==>
              McpBlock(part).value == ImageBlock(part.image.data, part.image.mediaType.value, None)
    ensures McpBlock(part).Some? && part.AudioPart? ==>
              McpBlock(part).value == AudioBlock(part.audio.data, part.audio.mediaType.value, None)
    ensures McpBlock(part).Some? && part.ResourcePart? ==>
              var r := part.resource;
              McpBlock(part).value == ResourceBlock(TextContents(r.uri, r.mimeType, r.content.value, None), None)
    ensures McpBlock(part).Some? && part.ReferencePart? ==>
              McpBlock(part).value == LinkBlock(part.reference.uri, part.reference.name.value, None)
  {
  }

  lemma RebuiltMessage(message: Message)
    ensures McpPromptMessage(message).Some?
            <==> && (message.role == User || message.role == Assistant)
                 && |message.content| == 1 && McpBlock(message.content[0]).Some?
    ensures McpPromptMessage(message).Some? ==>
              && McpPromptMessage(message).value.role == (if message.role == User then UserRole else AssistantRole)
              && McpPromptMessage(message).value.content == McpBlock(message.content[0]).value
  {
  }

  // ----- Which parts of a payload count -----

  lemma {:induction false} PromptResultsHave(content: seq<ContentPart>)
    ensures |PromptResults(content)| <= |content|
    ensures PromptResults(content) == [] <==> forall i | 0 <= i < |content| :: !content[i].PromptResultPart?
  {
    if content != [] {
      PromptResultsHave(content[..|content| - 1]);
    }
  }

  lemma {:induction false} OnePromptResult(content: seq<ContentPart>, i: nat)
    requires i < |content| && content[i].PromptResultPart?
    ensures |PromptResults(content)| == 1
            <==> forall j | 0 <= j < |content| :: content[j].PromptResultPart? ==> j == i
    ensures |PromptResults(content)| == 1 ==> PromptResults(content)[0] == content[i].result
    ensures |PromptResults(content)| >= 1
  {
    var front, n := content[..|content| - 1], |content| - 1;
    PromptResultsHave(front);
    if i < n {
      OnePromptResult(front, i);
    }
  }

  /** A payload has a prompt result exactly if one of its parts, and no other, is one. */
  lemma OnlyPromptResultIff(payload: Message, result: PromptResult)
    ensures OnlyPromptResult(payload) == Some(result)
            <==> exists i | 0 <= i < |payload.content| ::
                   && payload.content[i] == PromptResultPart(result)
                   && forall j | 0 <= j < |payload.content| :: payload.content[j].PromptResultPart? ==> j == i
  {
    PromptResultsHave(payload.content);
    forall i | 0 <= i < |payload.content| && payload.content[i].PromptResultPart?
      ensures |PromptResults(payload.content)| == 1
              <==> forall j | 0 <= j < |payload.content| :: payload.content[j].PromptResultPart? ==> j == i
      ensures |PromptResults(payload.content)| == 1 ==> PromptResults(payload.content)[0] == payload.content[i].result
    {
      OnePromptResult(payload.content, i);
    }
  }

  lemma {:induction false} PromptRequestsHave(content: seq<ContentPart>)
    ensures PromptRequests(content) == [] <==> forall i | 0 <= i < |content| :: !content[i].PromptRequestPart?
  {
    if content != [] {
      PromptRequestsHave(content[..|content| - 1]);
    }
  }

  lemma {:induction false} OnePromptRequest(content: seq<ContentPart>, i: nat)
    requires i < |content| && content[i].PromptRequestPart?
    ensures |PromptRequests(content)| == 1
            <==> forall j | 0 <= j < |content| :: content[j].PromptRequestPart? ==> j == i
    ensures |PromptRequests(content)| == 1 ==> PromptRequests(content)[0] == content[i].request
    ensures |PromptRequests(content)| >= 1
  {
    var front, n := content[..|content| - 1], |content| - 1;
    PromptRequestsHave(front);
    if i < n {
      OnePromptRequest(front, i);
    }
  }

  /** Edited arguments are taken exactly from a payload whose one prompt request still names this prompt and backend. */
  lemma PromptRequestArgumentsIff(payload: Message, arguments: map<string, Json>, name: string, backend: string,
                                  id: string)
    ensures PromptRequestArguments(payload, name, backend, id) == Some(arguments)
            <==> exists i | 0 <= i < |payload.content| ::
                   && payload.content[i] == PromptRequestPart(PromptRequest(id, name, arguments, Some(backend)))
                   && forall j | 0 <= j < |payload.content| :: payload.content[j].PromptRequestPart? ==> j == i
  {
    PromptRequestsHave(payload.content);
    forall i | 0 <= i < |payload.content| && payload.content[i].PromptRequestPart?
      ensures |PromptRequests(payload.content)| == 1
              <==> forall j | 0 <= j < |payload.content| :: payload.content[j].PromptRequestPart? ==> j == i
      ensures |PromptRequests(payload.content)| == 1 ==>
                PromptRequests(payload.content)[0] == payload.content[i].request
    {
      OnePromptRequest(payload.content, i);
    }
  }

  /** Of several tool results the first counts. */
  lemma {:induction false} FirstToolResult(content: seq<ContentPart>, i: nat)
    requires i < |content| && content[i].ToolResultPart? && forall j | 0 <= j < i :: !content[j].ToolResultPart?
    ensures ToolResults(content) != [] && ToolResults(content)[0] == content[i].toolResult
  {
    var front := content[..|content| - 1];
    if i < |front| {
      FirstToolResult(front, i);
    } else {
      NoToolResult(front);
    }
  }

  lemma {:induction false} NoToolResult(content: seq<ContentPart>)
    ensures ToolResults(content) == [] <==> forall i | 0 <= i < |content| :: !content[i].ToolResultPart?
  {
    if content != [] {
      NoToolResult(content[..|content| - 1]);
    }
  }

  /** Prompt results are matched by name and request, and may not carry anything beside the messages. */
  lemma MessagesOnlyIff(original: GetPromptResult, payload: Message, name: string, id: string)
    ensures Written(original, payload, name, id).Some? ==>
              var result := OnlyPromptResult(payload).value;
              && result.promptName == name && result.requestId == id
              && result.content == None && result.errorMessage == None
              && |result.messages| == |original.messages|
  {
  }

  /** The envelope of each payload: version, role and one part for a prompt or tool, one for each resource. */
  lemma Envelopes(prompt: GetPromptResult, arguments: Option<map<string, Json>>, tool: CallToolResult,
                  resource: ReadResourceResult, name: string, backend: string, id: string, codec: ToolCodec,
                  base64: Base64)
    ensures var payload := PromptResultPayload(prompt, name, id);
            && payload.schemaVersion == "2.0" && payload.channel == None && payload.role == Assistant
            && |payload.content| == 1 && payload.content[0].PromptResultPart?
            && payload.content[0].result.requestId == id && payload.content[0].result.promptName == name
            && !payload.content[0].result.isError
    ensures PromptRequestPayload(arguments, name, backend, id)
            == Message("2.0", User, [PromptRequestPart(PromptRequest(id, name, OrEmpty(arguments), Some(backend)))],
                       None)
    ensures var payload := ToolResultPayload(tool, name, id, codec);
            && payload.schemaVersion == "2.0" && payload.channel == None && payload.role == ToolRole
            && payload.content
               == [ToolResultPart(ToolResult(id, name, codec.encode(tool), tool.isError == Some(true)))]
    ensures ResourceResultPayload(resource, id, base64).Some? ==>
              var payload := ResourceResultPayload(resource, id, base64).value;
              && payload.schemaVersion == "2.0" && payload.channel == None && payload.role == Assistant
              && |payload.content| == |resource.contents|
  {
  }
}
