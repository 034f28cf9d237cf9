/** The two MCP request handlers of the server (src/index.ts:50-115): listing the one tool
    it offers, and calling it. The call handler is a function of the tool name, the call
    arguments, the configured destination URL and the reply the note-service client gives;
    its result records both the protocol response and the content, if any, handed to the
    client, so that "no client call" is observable. Each `throw new Error(m)` of the source
    is a `Failure` carrying `m` and the class of error it belongs to. */
module Tools {
  import opened Wrappers
  import opened JsValues

  datatype PropertySchema = PropertySchema(typ: string, description: string)
  datatype InputSchema = InputSchema(typ: string, properties: map<string, PropertySchema>, required: seq<string>)
  datatype ToolDescriptor = ToolDescriptor(name: string, description: string, inputSchema: InputSchema)

  const WriteNote: string := "write_note"
  const ContentKey: string := "content"

  /** The descriptor of `write_note` as the listing advertises it. */
  const WriteNoteTool: ToolDescriptor :=
    ToolDescriptor(
      WriteNote,
      "Write note to flomo",
      InputSchema(
        "object",
        map[ContentKey := PropertySchema("string", "Text content of the note with markdown format")],
        [ContentKey]))

  /** The ListTools handler. */
  function ListTools(): (tools: seq<ToolDescriptor>)
    ensures |tools| == 1
    ensures tools[0].name == WriteNote && tools[0].description == "Write note to flomo"
    ensures var schema := tools[0].inputSchema;
            && schema.typ == "object"
            && schema.properties.Keys == {ContentKey}
            && schema.properties[ContentKey].typ == "string"
            && schema.properties[ContentKey].description == "Text content of the note with markdown format"
            && schema.required == [ContentKey]
  {
    [WriteNoteTool]
  }

  /** The memo object of a reply; of its fields only `slug` is read. */
  datatype Memo = Memo(slug: JsValue)

  /** The parsed reply body of the note service. `memo` is `None` when the field is
      absent or falsy; `message` is `Undefined` when absent. */
  datatype NoteResult = NoteResult(memo: Option<Memo>, message: JsValue)

  /** What `await flomo.writeNote({ content })` does: return a reply, or throw. */
  datatype ClientReply = Returned(result: NoteResult) | Threw(error: string)

  datatype ErrorKind =
    | UnknownTool            // no handler for the tool name
    | ConfigurationMissing   // the destination URL is empty
    | InvalidArgument        // the content converts to the empty string
    | Transport              // the client threw
    | RemoteRejection        // the reply carries no usable memo slug

  datatype ToolResponse = Success(text: string) | Failure(kind: ErrorKind, message: string)

  /** The response, and `Some(content)` exactly when the client was called with `content`. */
  datatype Invocation = Invocation(response: ToolResponse, sent: Option<string>)

  const UnknownToolMessage: string := "Unknown tool"
  const UrlNotSetMessage: string := "Flomo API URL not set"
  const ContentRequiredMessage: string := "Content is required"
  const RejectionPrefix: string := "Failed to write note to flomo: "
  const UnknownErrorDetail: string := "unknown error"
  const SuccessPrefix: string := "Write note to flomo success, view it at: "
  const MemoUrlPrefix: string := "https://v.flomoapp.com/mine/?memo_id="

  /** `request.params.arguments?.content`. */
  function ContentArgument(arguments: Option<map<string, JsValue>>): (v: JsValue)
    ensures v != Undefined ==> arguments.Some? && ContentKey in arguments.value && v == arguments.value[ContentKey]
    ensures arguments.Some? && ContentKey in arguments.value ==> v == arguments.value[ContentKey]
  {
    match arguments
    case None => Undefined
    case Some(m) => if ContentKey in m then m[ContentKey] else Undefined
  }

  /** The address at which the web app shows the memo with this slug. */
  function MemoUrl(slug: JsValue): (url: string)
    ensures |url| >= |MemoUrlPrefix| && url[..|MemoUrlPrefix|] == MemoUrlPrefix
    ensures url[|MemoUrlPrefix|..] == ToJsString(slug)
    ensures slug != Str("") ==> |url| > |MemoUrlPrefix|
  {
    MemoUrlPrefix + ToJsString(slug)
  }

  /** The reply has a memo with a truthy slug. */
  predicate HasSlug(result: NoteResult)
    ensures HasSlug(result) <==>
              result.memo.Some? && result.memo.value.slug !in {Undefined, Null, Bool(false), Int(0), Str("")}
    ensures HasSlug(result) ==> |MemoUrl(result.memo.value.slug)| > |MemoUrlPrefix|
  {
    result.memo.Some? && Truthy(result.memo.value.slug)
  }

  /** `result?.message || "unknown error"`. */
  function RejectionDetail(result: NoteResult): (detail: string)
    ensures detail != ""
    ensures result.message.Str? && result.message.s != "" ==> detail == result.message.s
    ensures !Truthy(result.message) ==> detail == UnknownErrorDetail
  {
    if Truthy(result.message) then ToJsString(result.message) else UnknownErrorDetail
  }

  /** The CallTool handler. */
  function CallTool(name: string, arguments: Option<map<string, JsValue>>, apiUrl: string, reply: ClientReply)
    : (out: Invocation)
    // the checks come in a fixed order: tool name, then URL, then content
    ensures name != WriteNote ==> out == Invocation(Failure(UnknownTool, UnknownToolMessage), None)
    ensures name == WriteNote && apiUrl == "" ==>
              out == Invocation(Failure(ConfigurationMissing, UrlNotSetMessage), None)
    ensures name == WriteNote && apiUrl != "" && ContentArgument(arguments) == Str("") ==>
              out == Invocation(Failure(InvalidArgument, ContentRequiredMessage), None)
    // the client is called exactly when all checks pass, with the converted content
    ensures out.sent.Some? <==> name == WriteNote && apiUrl != "" && ContentArgument(arguments) != Str("")
    ensures out.sent.Some? ==> out.sent.value == ToJsString(ContentArgument(arguments)) && out.sent.value != ""
    // once called, the reply decides
    ensures out.response.Success? <==> out.sent.Some? && reply.Returned? && HasSlug(reply.result)
    ensures out.response.Success? ==>
              out.response.text == SuccessPrefix + MemoUrl(reply.result.memo.value.slug)
    ensures out.sent.Some? && reply.Threw? ==> out.response == Failure(Transport, reply.error)
    ensures out.sent.Some? && reply.Returned? && !HasSlug(reply.result) ==>
              out.response == Failure(RemoteRejection, RejectionPrefix + RejectionDetail(reply.result))
  {
    if name != WriteNote then
      Invocation(Failure(UnknownTool, UnknownToolMessage), None)
    else if apiUrl == "" then
      Invocation(Failure(ConfigurationMissing, UrlNotSetMessage), None)
    else
      var content := ToJsString(ContentArgument(arguments));
      if content == "" then
        Invocation(Failure(InvalidArgument, ContentRequiredMessage), None)
      else
        var response :=
          match reply
          case Threw(error) => Failure(Transport, error)
          case Returned(result) =>
            if !HasSlug(result) then Failure(RemoteRejection, RejectionPrefix + RejectionDetail(result))
            else Success(SuccessPrefix + MemoUrl(result.memo.value.slug));
        Invocation(response, Some(content))
  }

  /** A call is turned away as an unknown tool exactly when the listing does not
      advertise its name. */
  lemma DispatchMatchesListing(name: string, arguments: Option<map<string, JsValue>>, apiUrl: string, reply: ClientReply)
    ensures CallTool(name, arguments, apiUrl, reply).response.Failure?
            && CallTool(name, arguments, apiUrl, reply).response.kind == UnknownTool
            <==> forall k :: 0 <= k < |ListTools()| ==> ListTools()[k].name != name
  {
    var tools := ListTools();
    if name == WriteNote {
      assert tools[0].name == name;
    }
  }

  /** A successful call's text ends with the memo's address, and `String(slug)` of the
      reply's slug can be read back from a fixed offset in it (so different string slugs
      give different texts). */
  lemma SuccessTextNamesMemo(name: string, arguments: Option<map<string, JsValue>>, apiUrl: string, reply: ClientReply)
    ensures var out := CallTool(name, arguments, apiUrl, reply);
            out.response.Success? ==>
              var slug, text := reply.result.memo.value.slug, out.response.text;
              && |text| == |SuccessPrefix| + |MemoUrl(slug)|
              && text[|SuccessPrefix|..] == MemoUrl(slug)
              && text[|SuccessPrefix| + |MemoUrlPrefix|..] == ToJsString(slug)
  {
    var out := CallTool(name, arguments, apiUrl, reply);
    if out.response.Success? {
      var slug, text := reply.result.memo.value.slug, out.response.text;
      var url, prefixLength := MemoUrl(slug), |SuccessPrefix|;
      assert text == SuccessPrefix + url;
      assert text[prefixLength..] == url;
      assert url[|MemoUrlPrefix|..] == ToJsString(slug);
      assert text[prefixLength + |MemoUrlPrefix|..] == url[|MemoUrlPrefix|..];
    }
  }

  /** A missing content argument (no arguments, or no `content` key) is not rejected: it
      is sent as the text "undefined"; a `null`, boolean or numeric one is likewise sent
      as its string form. */
  lemma NonStringContentIsSent(arguments: Option<map<string, JsValue>>, apiUrl: string, reply: ClientReply)
    requires apiUrl != "" && !ContentArgument(arguments).Str?
    ensures CallTool(WriteNote, arguments, apiUrl, reply).sent.Some?
    ensures ContentArgument(arguments) == Undefined ==>
              CallTool(WriteNote, arguments, apiUrl, reply).sent == Some("undefined")
  {
  }

  /** A reply whose memo lacks a slug is a rejection like a reply without memo, and it
      reports the reply's message when there is one. */
  lemma PartialMemoIsRejected(content: string, apiUrl: string, message: string)
    requires content != "" && apiUrl != ""
    ensures var reply := Returned(NoteResult(Some(Memo(Undefined)), Str(message)));
            CallTool(WriteNote, Some(map[ContentKey := Str(content)]), apiUrl, reply).response
              == Failure(RemoteRejection, RejectionPrefix + (if message == "" then UnknownErrorDetail else message))
  {
  }

  /** URL set, content "hello world", reply `{ "memo": { "slug": "abc123" } }`: the
      content is sent and the text ends in `memo_id=abc123`. */
  lemma HelloWorldScenario(apiUrl: string)
    requires apiUrl != ""
    ensures var reply := Returned(NoteResult(Some(Memo(Str("abc123"))), Undefined));
            CallTool(WriteNote, Some(map[ContentKey := Str("hello world")]), apiUrl, reply)
              == Invocation(Success(SuccessPrefix + MemoUrlPrefix + "abc123"), Some("hello world"))
  {
  }

  /** URL set, content "x", reply `{ "message": "rate limited" }`. */
  lemma RateLimitedScenario(apiUrl: string)
    requires apiUrl != ""
    ensures var reply := Returned(NoteResult(None, Str("rate limited")));
            CallTool(WriteNote, Some(map[ContentKey := Str("x")]), apiUrl, reply).response
              == Failure(RemoteRejection, "Failed to write note to flomo: rate limited")
  {
  }
}
