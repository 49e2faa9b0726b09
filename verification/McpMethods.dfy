/**
 What the server answers to each method, as JSON values: requests are printed documents in any style and field
 order, and the answers are written out member by member.
 */
module McpMethods {
  import opened Wrappers
  import opened CText
  import opened JsonText
  import opened JsonScan
  import opened JsonValue
  import opened JsonLookup
  import opened McpServer
  import opened McpExchange
  import opened McpInitialize

  // ---- the answers ----

  function Text(key: string, raw: string): Member { Member(key, Str(raw)) }

  function ToolJson(name: string, about: string, properties: seq<Member>, needed: seq<Json>): Json {
    Obj([Text("name", name), Text("description", about),
         Member("inputSchema", Obj([Text("type", "object"), Member("properties", Obj(properties)),
                                    Member("required", Arr(needed))]))])
  }

  function PropertyJson(name: string, about: string): Member {
    Member(name, Obj([Text("type", "string"), Text("description", about)]))
  }

  /** The three tools with their arguments. */
  function ToolsJson(): seq<Json> {
    [ToolJson("read_file", AboutRead(), [PropertyJson("path", "AmigaDOS path to read")], [Str("path")]),
     ToolJson("write_file", AboutWrite(),
              [PropertyJson("path", "AmigaDOS path to write"), PropertyJson("text", "file contents")],
              [Str("path"), Str("text")]),
     ToolJson("run_command", AboutRun(), [PropertyJson("cmd", "AmigaDOS command line")], [Str("cmd")])]
  }

  function ToolListJson(): Json { Obj([Member("tools", Arr(ToolsJson()))]) }

  function ErrorJson(id: Json): Json {
    Obj([Text("jsonrpc", "2.0"), Member("id", id),
         Member("error", Obj([Member("code", Lit("-32601")), Text("message", "Method not found")]))])
  }

  /** A tool's answer: its escaped output in a content block, and whether it failed. */
  function AnswerJson(o: Outcome): Json {
    Obj([Member("content", Arr([Obj([Text("type", "text"), Text("text", Escape(o.text))])])),
         Member("isError", Lit(if o.failed then "true" else "false"))])
  }

  // ---- the formats print them ----

  lemma TextField(key: string, raw: string)
    ensures Field(Text(key, raw)) == Quoted(key) + ":" + Quoted(raw)
  {
  }

  lemma SchemaIsPrinted(properties: seq<Member>, needed: seq<Json>, ps: string, ns: string)
    requires Print(Obj(properties), COMPACT) == "{" + ps + "}" && Print(Arr(needed), COMPACT) == "[" + ns + "]"
    ensures Schema(ps, ns)
         == Print(Obj([Text("type", "object"), Member("properties", Obj(properties)), Member("required", Arr(needed))]),
                  COMPACT)
  {
    hide Print;
    TextField("type", "object");
    FieldDef(Member("properties", Obj(properties)));
    FieldDef(Member("required", Arr(needed)));
    ThreeFields(Text("type", "object"), Member("properties", Obj(properties)), Member("required", Arr(needed)));
    SchemaKeys();
    hide Field, Quoted;
  }

  lemma SchemaKeys()
    ensures Quoted("type") + ":" + Quoted("object") == "\"type\":\"object\""
    ensures Quoted("properties") + ":" == "\"properties\":" && Quoted("required") + ":" == "\"required\":"
  {
  }

  lemma ToolKeys()
    ensures Quoted("name") + ":" == "\"name\":" && Quoted("description") + ":" == "\"description\":"
    ensures Quoted("inputSchema") + ":" == "\"inputSchema\":"
    ensures Quoted("type") + ":" + Quoted("string") == "\"type\":\"string\""
  {
  }

  lemma ToolIsPrinted(name: string, about: string, properties: seq<Member>, needed: seq<Json>, ps: string, ns: string)
    requires Print(Obj(properties), COMPACT) == "{" + ps + "}" && Print(Arr(needed), COMPACT) == "[" + ns + "]"
    ensures Tool(name, about, ps, ns) == Print(ToolJson(name, about, properties, needed), COMPACT)
  {
    hide Print, Schema;
    SchemaIsPrinted(properties, needed, ps, ns);
    var schema := Member("inputSchema", Obj([Text("type", "object"), Member("properties", Obj(properties)),
                                             Member("required", Arr(needed))]));
    TextField("name", name);
    TextField("description", about);
    FieldDef(schema);
    ThreeFields(Text("name", name), Text("description", about), schema);
    ToolKeys();
    hide Field, Quoted;
  }

  lemma PropertyIsPrinted(name: string, about: string)
    ensures Field(PropertyJson(name, about)) == Property(name, about)
  {
    hide Print;
    TextField("type", "string");
    TextField("description", about);
    TwoFields(Text("type", "string"), Text("description", about));
    FieldDef(PropertyJson(name, about));
    ToolKeys();
    hide Field, Quoted;
  }

  lemma OneProperty(name: string, about: string)
    ensures Print(Obj([PropertyJson(name, about)]), COMPACT) == "{" + Property(name, about) + "}"
    ensures Print(Arr([Str(name)]), COMPACT) == "[" + Quoted(name) + "]"
  {
    StrText(name);
    hide Print, Property;
    PropertyIsPrinted(name, about);
    OneField(PropertyJson(name, about));
    PrintOneItem(Str(name));
  }

  lemma TwoProperties(a: string, aboutA: string, b: string, aboutB: string)
    ensures Print(Obj([PropertyJson(a, aboutA), PropertyJson(b, aboutB)]), COMPACT)
         == "{" + (Property(a, aboutA) + ("," + Property(b, aboutB))) + "}"
    ensures Print(Arr([Str(a), Str(b)]), COMPACT) == "[" + (Quoted(a) + ("," + Quoted(b))) + "]"
  {
    StrText(a);
    StrText(b);
    hide Print, Property, Quoted;
    PropertyIsPrinted(a, aboutA);
    PropertyIsPrinted(b, aboutB);
    TwoFields(PropertyJson(a, aboutA), PropertyJson(b, aboutB));
    hide Field, PropertyJson;
    var pa, pb := Property(a, aboutA), Property(b, aboutB);
    assert "{" + pa + "," + pb == "{" + (pa + ("," + pb));
    TwoItems(Str(a), Str(b));
  }

  lemma TwoItems(a: Json, b: Json)
    ensures Print(Arr([a, b]), COMPACT) == "[" + (Print(a, COMPACT) + ("," + Print(b, COMPACT))) + "]"
  {
    hide Print;
    ItemsText([a, b]);
    ItemsMore(a, [b]);
    ItemsMore(b, []);
    assert [a] + [b] == [a, b] && [b] + [] == [b];
  }

  lemma ItemsText(items: seq<Json>)
    ensures Print(Arr(items), COMPACT) == "[" + PrintItems(items, COMPACT) + "]"
  {
  }

  lemma ItemsMore(j: Json, rest: seq<Json>)
    ensures PrintItems([j] + rest, COMPACT)
         == Print(j, COMPACT) + if rest == [] then "" else "," + PrintItems(rest, COMPACT)
    ensures rest == [] ==> PrintItems([j] + rest, COMPACT) == Print(j, COMPACT)
  {
    hide Print;
    assert ([j] + rest)[1..] == rest && "," + "" == ",";
    assert Print(j, COMPACT) + "" == Print(j, COMPACT);
  }

  lemma ThreeItems(a: Json, b: Json, c: Json)
    ensures Print(Arr([a, b, c]), COMPACT)
         == "[" + (Print(a, COMPACT) + ("," + (Print(b, COMPACT) + ("," + (Print(c, COMPACT) + "]")))))
  {
    hide Print;
    ItemsText([a, b, c]);
    ItemsMore(a, [b, c]);
    ItemsMore(b, [c]);
    ItemsMore(c, []);
    assert [a] + [b, c] == [a, b, c] && [b] + [c] == [b, c] && [c] + [] == [c];
    hide PrintItems;
    GlueItems(Print(a, COMPACT), Print(b, COMPACT), Print(c, COMPACT));
  }

  lemma GlueItems(a: string, b: string, c: string)
    ensures "[" + (a + ("," + (b + ("," + c)))) + "]" == "[" + (a + ("," + (b + ("," + (c + "]")))))
  {
    var d := "," + c;
    assert d + "]" == "," + (c + "]");
    var e := "," + (b + d);
    assert e + "]" == "," + (b + (d + "]"));
    assert "[" + (a + e) + "]" == "[" + (a + (e + "]"));
  }

  lemma ReadToolIsPrinted()
    ensures ReadTool() == Print(ToolsJson()[0], COMPACT)
  {
    hide Print, Tool, Property, AboutRead, AboutWrite, AboutRun, ToolJson;
    OneProperty("path", "AmigaDOS path to read");
    assert Quoted("path") == "\"path\"";
    ToolIsPrinted("read_file", AboutRead(), [PropertyJson("path", "AmigaDOS path to read")], [Str("path")],
                  Property("path", "AmigaDOS path to read"), "\"path\"");
  }

  lemma WriteToolIsPrinted()
    ensures WriteTool() == Print(ToolsJson()[1], COMPACT)
  {
    hide Print, Tool, Property, AboutRead, AboutWrite, AboutRun, ToolJson;
    TwoProperties("path", "AmigaDOS path to write", "text", "file contents");
    assert Quoted("path") + ("," + Quoted("text")) == "\"path\",\"text\"";
    ToolIsPrinted("write_file", AboutWrite(),
                  [PropertyJson("path", "AmigaDOS path to write"), PropertyJson("text", "file contents")],
                  [Str("path"), Str("text")],
                  Property("path", "AmigaDOS path to write") + ("," + Property("text", "file contents")),
                  "\"path\",\"text\"");
  }

  lemma RunToolIsPrinted()
    ensures RunTool() == Print(ToolsJson()[2], COMPACT)
  {
    hide Print, Tool, Property, AboutRead, AboutWrite, AboutRun, ToolJson;
    OneProperty("cmd", "AmigaDOS command line");
    assert Quoted("cmd") == "\"cmd\"";
    ToolIsPrinted("run_command", AboutRun(), [PropertyJson("cmd", "AmigaDOS command line")], [Str("cmd")],
                  Property("cmd", "AmigaDOS command line"), "\"cmd\"");
  }

  /** The constant tool list is the printed list of the three tools. */
  lemma ToolListIsPrinted()
    ensures ToolList() == Print(ToolListJson(), COMPACT)
  {
    ReadToolIsPrinted();
    WriteToolIsPrinted();
    RunToolIsPrinted();
    hide Print, ReadTool, WriteTool, RunTool;
    var js := ToolsJson();
    ThreeItems(js[0], js[1], js[2]);
    assert js == [js[0], js[1], js[2]];
    hide ToolsJson;
    var tools := Member("tools", Arr(js));
    OneField(tools);
    FieldDef(tools);
    assert Quoted("tools") + ":" == "\"tools\":";
    GlueList(Catalogue());
  }

  lemma GlueList(c: string)
    ensures "{" + ("\"tools\":" + c) + "}" == "{\"tools\":" + (c + "}")
  {
    assert "{" + ("\"tools\":" + c) == "{\"tools\":" + c;
  }

  lemma ErrorTexts()
    ensures Field(Member("code", Lit("-32601"))) == "\"code\":-32601"
    ensures Quoted("message") + ":" + Quoted("Method not found") == "\"message\":\"Method not found\""
    ensures Quoted("error") + ":" == "\"error\":"
  {
  }

  lemma ErrorFields()
    ensures Field(Member("error", Obj([Member("code", Lit("-32601")), Text("message", "Method not found")])))
         == "\"error\":" + ("{" + "\"code\":-32601" + "," + "\"message\":\"Method not found\"" + "}")
  {
    hide Print, Quoted, Field;
    ErrorTexts();
    TextField("message", "Method not found");
    TwoFields(Member("code", Lit("-32601")), Text("message", "Method not found"));
    FieldDef(Member("error", Obj([Member("code", Lit("-32601")), Text("message", "Method not found")])));
  }

  lemma ErrorTail(error: string)
    requires error
          == ("\"error\":" + ("{" + "\"code\":-32601" + "," + "\"message\":\"Method not found\"" + "}")) + "}"
    ensures "," + error == NotFoundTail()
  {
  }

  lemma GlueError(id: string)
    ensures "{" + ("\"jsonrpc\":\"2.0\"" + ("," + (("\"id\":" + id) + ("," + (("\"error\":"
            + ("{" + "\"code\":-32601" + "," + "\"message\":\"Method not found\"" + "}")) + "}")))))
         == "{\"jsonrpc\":\"2.0\",\"id\":" + (id + NotFoundTail())
  {
    var error := ("\"error\":" + ("{" + "\"code\":-32601" + "," + "\"message\":\"Method not found\"" + "}")) + "}";
    ErrorTail(error);
    hide NotFoundTail;
    var head := "{" + "\"jsonrpc\":\"2.0\"" + "," + "\"id\":";
    assert head == "{\"jsonrpc\":\"2.0\",\"id\":";
    GlueId(head, id, NotFoundTail());
  }

  lemma GlueId(head: string, id: string, tail: string)
    requires head == "{" + "\"jsonrpc\":\"2.0\"" + "," + "\"id\":"
    ensures "{" + ("\"jsonrpc\":\"2.0\"" + ("," + (("\"id\":" + id) + tail))) == head + (id + tail)
  {
    var v, k := "\"jsonrpc\":\"2.0\"", "\"id\":";
    var rest := id + tail;
    assert (k + id) + tail == k + rest;
    assert "{" + (v + ("," + (k + rest))) == ("{" + v + "," + k) + rest;
  }

  /** The error envelope is the printed error object. */
  lemma NotFoundIsPrinted(id: Json)
    requires Valid(id)
    ensures NotFound(Print(id, COMPACT)) == Print(ErrorJson(id), COMPACT)
  {
    var m0, m1 := Text("jsonrpc", "2.0"), Member("id", id);
    var m2 := Member("error", Obj([Member("code", Lit("-32601")), Text("message", "Method not found")]));
    NotEmpty(id);
    ErrorFields();
    hide Print, NotFoundTail;
    ThreeFields(m0, m1, m2);
    TextField("jsonrpc", "2.0");
    FieldDef(m1);
    assert Quoted("jsonrpc") + ":" + Quoted("2.0") == "\"jsonrpc\":\"2.0\"" && Quoted("id") + ":" == "\"id\":";
    hide Field, Quoted;
    GlueError(Print(id, COMPACT));
  }

  lemma AnswerIsPrinted(o: Outcome)
    requires EscapeFits(o.text, ESCBUF)
    ensures ToolResult(o) == Print(AnswerJson(o), COMPACT)
  {
    hide Print, Escape, ToolResult, EscapeFits;
    ResultIsPrinted(o);
  }

  // ---- what each method gets ----

  /** A request: its method, and an id that fits the buffer, with no namesake before them. */
  predicate Asks(j: Json, st: Style, verb: string, id: Json) {
    && Valid(j) && st.Valid() && HasText(j, "method", verb, NAMEBUF)
    && Valid(id) && FirstKey(j, "id") == Some(id) && Scalar(id) && TokenFits(id)
  }

  /** The same without an id, which is answered with a null one. */
  predicate AsksNoId(j: Json, st: Style, verb: string) {
    Valid(j) && st.Valid() && HasText(j, "method", verb, NAMEBUF) && FirstKey(j, "id") == None
  }

  const NULL := Lit("null")

  /** A request with that id, or one without id and answered with `null`. */
  predicate Sent(j: Json, st: Style, verb: string, id: Json) {
    Asks(j, st, verb, id) || (AsksNoId(j, st, verb) && id == NULL)
  }

  lemma RequestRead(j: Json, st: Style, verb: string, id: Json)
    requires Sent(j, st, verb, id)
    ensures Method(Print(j, st)) == verb && Valid(id)
    ensures OrNull(Id(Print(j, st))) == Print(id, COMPACT)
    ensures Id(Print(j, st)) == "" <==> !Asks(j, st, verb, id)
  {
    ShortKeys();
    assert Valid(NULL) && Print(NULL, COMPACT) == "null";
    hide Valid, Print, GetString, RawToken, HasText, SearchKey, FirstKey, TokenFits;
    ReadsText(j, "method", verb, st, NAMEBUF);
    if Asks(j, st, verb, id) {
      TokenEchoes(j, "id", st, id);
      ScalarHasNoKey(id, "id", st);
      NotEmpty(id);
    } else {
      NoToken(j, "id", st);
    }
  }

  lemma Enveloped(id: Json, token: string, result: Json)
    requires Valid(id) && OrNull(token) == Print(id, COMPACT)
    ensures Respond(token, Print(result, COMPACT)) == Print(ReplyJson(id, result), COMPACT)
  {
    hide Print, ReplyJson;
    NotEmpty(id);
    RespondIsPrinted(id, result);
  }

  /** The branches for the four known methods. */
  lemma KnownMethod(req: string, k: nat, tools: Tools)
    ensures var h, id := Handle(req, k, tools), Id(req);
            && (Method(req) == "ping" ==> h == Handled(Some(Respond(id, "{}")), k))
            && (Method(req) == "tools/list" ==> h == Handled(Some(Respond(id, ToolList())), k))
            && (Method(req) == "initialize" ==> h == Handled(Some(Respond(id, Initialized(Version(req)))), k))
            && (Method(req) == "tools/call" ==> h == Handled(
                  Some(Respond(id, ToolResult(Perform(CallOf(Params(req)), k, tools)))), k + 1))
  {
    NotANotification();
    hide Respond, Method, Id, Notification, ToolList, Params, Version, ToolResult, Initialized, CallOf, Perform;
  }

  /** `ping` is answered with an empty object and runs no tool. */
  lemma PingAnswered(j: Json, id: Json, st: Style, k: nat, tools: Tools)
    requires Sent(j, st, "ping", id)
    ensures Handle(Print(j, st), k, tools) == Handled(Some(Print(ReplyJson(id, Obj([])), COMPACT)), k)
  {
    assert Print(Obj([]), COMPACT) == "{}";
    hide Sent, Print, Respond, Method, Id, OrNull, ReplyJson, Handle, Valid;
    RequestRead(j, st, "ping", id);
    Enveloped(id, Id(Print(j, st)), Obj([]));
    KnownMethod(Print(j, st), k, tools);
  }

  /** `tools/list` is answered with the list and runs no tool. */
  lemma ListAnswered(j: Json, id: Json, st: Style, k: nat, tools: Tools)
    requires Sent(j, st, "tools/list", id)
    ensures Handle(Print(j, st), k, tools) == Handled(Some(Print(ReplyJson(id, ToolListJson()), COMPACT)), k)
  {
    hide Sent, Print, Respond, Method, Id, OrNull, ReplyJson, ToolList, ToolListJson, Handle, Valid;
    RequestRead(j, st, "tools/list", id);
    ToolListIsPrinted();
    Enveloped(id, Id(Print(j, st)), ToolListJson());
    KnownMethod(Print(j, st), k, tools);
  }

  /** A method the server does not know: an error if the request has an id, and nothing without one. */
  lemma UnknownAnswered(j: Json, id: Json, st: Style, verb: string, k: nat, tools: Tools)
    requires verb !in {"initialize", "ping", "tools/list", "tools/call"} && !("notifications/" <= verb)
    ensures Asks(j, st, verb, id) ==> Handle(Print(j, st), k, tools) == Handled(Some(Print(ErrorJson(id), COMPACT)), k)
    ensures AsksNoId(j, st, verb) ==> Handle(Print(j, st), k, tools) == Handled(None, k)
  {
    hide Print, Method, Id, Handle, NotFound, ErrorJson, Asks, AsksNoId, Valid;
    if Asks(j, st, verb, id) {
      RequestRead(j, st, verb, id);
      UnknownMethod(Print(j, st), k, tools);
      NotFoundIsPrinted(id);
      NotEmpty(id);
      NotFoundOf(Id(Print(j, st)), Print(id, COMPACT));
    }
    if AsksNoId(j, st, verb) {
      RequestRead(j, st, verb, NULL);
      UnknownMethod(Print(j, st), k, tools);
      NoIdHere(j, st, verb);
    }
  }

  /** The branch for every other method. */
  lemma UnknownMethod(req: string, k: nat, tools: Tools)
    requires Method(req) !in {"initialize", "ping", "tools/list", "tools/call"} && !("notifications/" <= Method(req))
    ensures Handle(req, k, tools) == Handled(if Id(req) == "" then None else Some(NotFound(Id(req))), k)
  {
    hide Method, Id, NotFound;
  }

  /** An absent id is written as `null`. */
  lemma NotFoundOf(a: string, b: string)
    requires OrNull(a) == OrNull(b)
    ensures NotFound(a) == NotFound(b)
  {
    hide OrNull;
  }

  lemma NoIdHere(j: Json, st: Style, verb: string)
    requires AsksNoId(j, st, verb)
    ensures !Asks(j, st, verb, NULL)
  {
  }

  /** A notification gets no answer, with an id or without. */
  lemma NotificationIsSilent(j: Json, st: Style, verb: string, k: nat, tools: Tools)
    requires Valid(j) && st.Valid() && HasText(j, "method", verb, NAMEBUF) && "notifications/" <= verb
    ensures Handle(Print(j, st), k, tools) == Handled(None, k)
  {
    ShortKeys();
    hide Valid, Print, GetString, HasText, SearchKey, Id;
    ReadsText(j, "method", verb, st, NAMEBUF);
  }

  // ---- tools/call and initialize ----

  lemma ParamsAreRead(j: Json, id: Json, params: Json, verb: string, st: Style)
    requires Sent(j, st, verb, id)
    requires FirstKey(j, "params") == Some(params) && params.Obj? && |Print(params, st)| < PARAMBUF
    ensures st.Valid() && Params(Print(j, st)) == Print(params, st) && Valid(params)
  {
    ShortKeys();
    hide Print, SpanWithin, FirstKey, SearchKey, HasText, TokenFits;
    FirstKeyValid(j, "params");
    ReadsSpan(j, "params", params, st, PARAMBUF);
  }

  /** The outcome written into the reply, member by member. */
  lemma CallAnswered(j: Json, id: Json, params: Json, st: Style, k: nat, tools: Tools)
    requires Sent(j, st, "tools/call", id)
    requires FirstKey(j, "params") == Some(params) && params.Obj? && |Print(params, st)| < PARAMBUF
    requires EscapeFits(Perform(CallOf(Print(params, st)), k, tools).text, ESCBUF)
    ensures var o := Perform(CallOf(Print(params, st)), k, tools);
            Handle(Print(j, st), k, tools) == Handled(Some(Print(ReplyJson(id, AnswerJson(o)), COMPACT)), k + 1)
  {
    hide Sent, Print, Respond, Method, Id, OrNull, ReplyJson, ToolResult, AnswerJson, FirstKey, Handle, Valid,
        EscapeFits, CallOf, Perform, Params;
    RequestRead(j, st, "tools/call", id);
    ParamsAreRead(j, id, params, "tools/call", st);
    var o := Perform(CallOf(Print(params, st)), k, tools);
    AnswerIsPrinted(o);
    Enveloped(id, Id(Print(j, st)), AnswerJson(o));
    KnownMethod(Print(j, st), k, tools);
  }

  /** No member of that name, or one that is no string. */
  predicate NoText(j: Json, key: string) { FirstKey(j, key) == None || !FirstKey(j, key).value.Str? }

  /** A tool asked for without the argument it needs, or not known at all: the fixed text, and no tool runs. */
  lemma BadCall(params: Json, args: Json, st: Style, name: string, k: nat, tools: Tools)
    requires Valid(params) && Valid(args) && st.Valid() && HasText(params, "name", name, NAMEBUF)
    requires FirstKey(params, "arguments") == Some(args) && args.Obj? && |Print(args, st)| < ARGBUF
    ensures var o := Perform(CallOf(Print(params, st)), k, tools);
            && (name in {"read_file", "write_file"} && NoText(args, "path")
                ==> o == Outcome("ERROR: missing required argument 'path'", true))
            && (name == "run_command" && NoText(args, "cmd")
                ==> o == Outcome("ERROR: missing required argument 'cmd'", true))
            && (name !in {"read_file", "write_file", "run_command"}
                ==> o == Outcome("ERROR: unknown tool '" + name + "'", true))
  {
    ShortKeys();
    hide Valid, Print, GetString, HasText, SearchKey, FirstKey, SpanWithin, CStr, UnescapeWithin;
    ReadsText(params, "name", name, st, NAMEBUF);
    ReadsSpan(params, "arguments", args, st, ARGBUF);
    LookupString(args, "path", st, PATHBUF);
    LookupString(args, "cmd", st, CMDBUF);
  }

  /** What a tool that runs puts into its buffer is the outcome, failure included. */
  lemma GoodCall(call: ToolCall, k: nat, tools: Tools)
    requires !call.MissingArgument? && !call.UnknownTool?
    requires '\0' !in tools(k, call).text && |tools(k, call).text| < TOOL_OUT_MAX
    ensures Perform(call, k, tools) == tools(k, call)
  {
    CStrOfNulFree(tools(k, call).text);
  }

  /** `initialize` is answered with the client's own version, or with 2024-11-05 if it names none. */
  lemma InitializeAnswered(j: Json, id: Json, params: Json, v: string, st: Style, k: nat, tools: Tools)
    requires Sent(j, st, "initialize", id)
    requires FirstKey(j, "params") == Some(params) && params.Obj? && |Print(params, st)| < PARAMBUF
    requires HasText(params, "protocolVersion", v, VERSIONBUF) || (NoText(params, "protocolVersion") && v == "")
    ensures Handle(Print(j, st), k, tools)
         == Handled(Some(Print(ReplyJson(id, VersionJson(if v == "" then "2024-11-05" else v)), COMPACT)), k)
  {
    hide Sent, Print, Respond, Method, Id, OrNull, ReplyJson, Initialized, VersionJson, FirstKey, Handle, Valid,
        HasText, Params, Version, NoText;
    RequestRead(j, st, "initialize", id);
    ParamsAreRead(j, id, params, "initialize", st);
    VersionIsRead(Print(j, st), params, v, st);
    var named := if v == "" then "2024-11-05" else v;
    InitializedIsPrinted(named);
    Enveloped(id, Id(Print(j, st)), VersionJson(named));
    KnownMethod(Print(j, st), k, tools);
  }

  lemma VersionIsRead(req: string, params: Json, v: string, st: Style)
    requires Valid(params) && st.Valid() && Params(req) == Print(params, st)
    requires HasText(params, "protocolVersion", v, VERSIONBUF) || (NoText(params, "protocolVersion") && v == "")
    ensures Version(req) == if v == "" then "2024-11-05" else v
  {
    InitKeys();
    hide Print, Params, FirstKey, HasText, SearchKey, CStr, UnescapeWithin, GetString, Valid;
    if HasText(params, "protocolVersion", v, VERSIONBUF) {
      ReadsText(params, "protocolVersion", v, st, VERSIONBUF);
    } else {
      LookupString(params, "protocolVersion", st, VERSIONBUF);
    }
  }
}
