/**
 The MCP server: one JSON-RPC request a line, at most one reply a line.

 Replies are put together by formats, not by a printer.  `RespondIsPrinted` ties them to printed JSON, so what a
 client reads back out of a reply follows from the lookup lemmas; `OneReplyALine` is the framing of a session.
 Tools are an arbitrary function of the request and of how many tool requests came before.
 */
module McpServer {
  import opened Wrappers
  import opened Bytes
  import opened CText
  import opened JsonText
  import opened JsonScan
  import opened JsonLookup
  import opened McpLines

  const LINEBUF := 65536
  const RESPBUF := 66000
  const PARAMBUF := 49152
  const ARGBUF := 40960
  const TEXTBUF := 32768
  const TOOL_OUT_MAX := 16000
  const ESCBUF := TOOL_OUT_MAX * 2 + 64
  const RESULTBUF := ESCBUF + 512
  const IDBUF := 256
  const NAMEBUF := 64      // the method, and the name of a tool
  const PATHBUF := 512
  const CMDBUF := 1024
  const VERSIONBUF := 32
  const PROTO_VERSION := "2024-11-05"

  // ---- the id token ----

  /** The rest of a quoted token, its closing quote included, while there is room. */
  function StringToken(p: string, room: int): (r: string)
    ensures |r| <= room + 1 || r == ""
    decreases |p|
  {
    if p == "" || room <= 0 then ""
    else if p[0] == '\\' && |p| > 1 then p[..2] + StringToken(p[2..], room - 2)
    else if p[0] == '\"' then "\""
    else [p[0]] + StringToken(p[1..], room - 1)
  }

  predicate Ends(c: char) { c == ',' || c == '}' || c == ']' || IsSpace(c) }

  function PlainToken(p: string, room: int): (r: string)
    ensures |r| <= room || r == ""
  {
    if p == "" || room <= 0 || Ends(p[0]) then "" else [p[0]] + PlainToken(p[1..], room - 1)
  }

  /** `get_raw_token`; empty when it fails. */
  function RawToken(json: string, key: string, outlen: nat): (r: string)
    requires outlen >= 4
    ensures |r| < outlen
  {
    match FindKey(json, key)
    case None => ""
    case Some(q) =>
      var v := SkipSpace(q);
      if Starts(v, "\"") then "\"" + StringToken(v[1..], outlen - 3) else PlainToken(v, outlen - 1)
  }

  // ---- requests ----

  function SpanWithin(json: string, key: string, size: nat): string
    requires size >= 1
  {
    match SpanCopy(json, key, size) case None => "" case Some(s) => s
  }

  function Method(req: string): string { GetStringOrEmpty(req, "method", NAMEBUF) }

  function Id(req: string): string { RawToken(req, "id", IDBUF) }

  function Params(req: string): string { SpanWithin(req, "params", PARAMBUF) }

  function Version(req: string): string {
    var v := GetStringOrEmpty(Params(req), "protocolVersion", VERSIONBUF);
    if v == "" then PROTO_VERSION else v
  }

  datatype ToolCall =
    | ReadFile(path: string)
    | WriteFile(path: string, text: string)
    | RunCommand(cmd: string)
    | MissingArgument(argument: string)
    | UnknownTool(name: string)

  datatype Outcome = Outcome(text: string, failed: bool)

  /** What the k-th tool request of a session does. */
  type Tools = (nat, ToolCall) -> Outcome

  /** The call that the parameters of a `tools/call` request stand for. */
  function CallOf(params: string): ToolCall {
    var name := GetStringOrEmpty(params, "name", NAMEBUF);
    var args := SpanWithin(params, "arguments", ARGBUF);
    if name == "read_file" then
      match GetString(args, "path", PATHBUF) case None => MissingArgument("path") case Some(p) => ReadFile(p)
    else if name == "write_file" then
      match GetString(args, "path", PATHBUF)
      case None => MissingArgument("path")
      case Some(p) => WriteFile(p, GetStringOrEmpty(args, "text", TEXTBUF))
    else if name == "run_command" then
      match GetString(args, "cmd", CMDBUF) case None => MissingArgument("cmd") case Some(c) => RunCommand(c)
    else UnknownTool(name)
  }

  /** The tool's output buffer, as a C string, and whether it failed. */
  function Perform(call: ToolCall, k: nat, tools: Tools): Outcome {
    match call
    case MissingArgument(a) => Outcome("ERROR: missing required argument '" + a + "'", true)
    case UnknownTool(n) => Outcome("ERROR: unknown tool '" + n + "'", true)
    case _ => Outcome(Take(CStr(tools(k, call).text), TOOL_OUT_MAX - 1), tools(k, call).failed)
  }

  // ---- replies ----

  const TOO_LARGE := "(output too large to encode)"

  function Encoded(text: string): string { if EscapeFits(text, ESCBUF) then Escape(text) else TOO_LARGE }

  function Flag(b: bool): string { if b then "true" else "false" }

  /** `build_tool_result`. */
  function ToolResult(o: Outcome): string {
    "{\"content\":[{\"type\":\"text\",\"text\":\"" + (Encoded(o.text) + ("\"}],\"isError\":" + (Flag(o.failed) + "}")))
  }

  function OrNull(id: string): string { if id == "" then "null" else id }

  /** `build_response`. */
  function Respond(id: string, result: string): string {
    "{\"jsonrpc\":\"2.0\",\"id\":" + (OrNull(id) + (",\"result\":" + (result + "}")))
  }

  function NotFoundTail(): string { ",\"error\":{\"code\":-32601," + "\"message\":\"Method not found\"}}" }

  /** `build_error` for an unknown method. */
  function NotFound(id: string): string { "{\"jsonrpc\":\"2.0\",\"id\":" + (OrNull(id) + NotFoundTail()) }

  function ServerInfo(): string {
    "\",\"capabilities\":{\"tools\":{}}," + ("\"serverInfo\":{\"name\":\"amiga-mcp\"," + "\"version\":\"1.0.0\"}}")
  }

  function Initialized(version: string): string { "{\"protocolVersion\":\"" + (version + ServerInfo()) }

  function Property(name: string, about: string): string {
    Quoted(name) + ":" + ("{" + "\"type\":\"string\"" + "," + ("\"description\":" + Quoted(about)) + "}")
  }

  function Schema(properties: string, needed: string): string {
    "{" + ("\"type\":\"object\"" + ("," + (("\"properties\":" + ("{" + properties + "}"))
        + ("," + (("\"required\":" + ("[" + needed + "]")) + "}")))))
  }

  function Tool(name: string, about: string, properties: string, needed: string): string {
    "{" + (("\"name\":" + Quoted(name)) + ("," + (("\"description\":" + Quoted(about))
        + ("," + (("\"inputSchema\":" + Schema(properties, needed)) + "}")))))
  }

  function AboutRead(): string {
    "Read a text file from the Amiga " + ("filesystem. Give an AmigaDOS path like " + "SYS:S/startup-sequence.")
  }

  function AboutWrite(): string {
    "Write text to a file on the Amiga " + ("filesystem, overwriting it. " + "Give path and text.")
  }

  function AboutRun(): string { "Run an AmigaDOS shell command and " + "return its captured output. Give cmd." }

  function ReadTool(): string { Tool("read_file", AboutRead(), Property("path", "AmigaDOS path to read"), "\"path\"") }

  function WriteTool(): string {
    Tool("write_file", AboutWrite(),
        Property("path", "AmigaDOS path to write") + ("," + Property("text", "file contents")),
         "\"path\",\"text\"")
  }

  function RunTool(): string { Tool("run_command", AboutRun(), Property("cmd", "AmigaDOS command line"), "\"cmd\"") }

  /** `TOOLS_JSON`. */
  function Catalogue(): string { "[" + (ReadTool() + ("," + (WriteTool() + ("," + (RunTool() + "]"))))) }

  function ToolList(): string { "{\"tools\":" + (Catalogue() + "}") }

  // ---- one request ----

  /** The reply, if any, and the number of tool requests so far. */
  datatype Handled = Handled(reply: Option<string>, calls: nat)

  predicate Notification(verb: string) { Starts(verb, "notifications/") }

  /** `handle_request`. */
  function Handle(req: string, k: nat, tools: Tools): Handled {
    var verb, id := Method(req), Id(req);
    if Notification(verb) then Handled(None, k)
    else if verb == "initialize" then Handled(Some(Respond(id, Initialized(Version(req)))), k)
    else if verb == "ping" then Handled(Some(Respond(id, "{}")), k)
    else if verb == "tools/list" then Handled(Some(Respond(id, ToolList())), k)
    else if verb == "tools/call" then
      Handled(Some(Respond(id, ToolResult(Perform(CallOf(Params(req)), k, tools)))), k + 1)
    else if id == "" then Handled(None, k)
    else Handled(Some(NotFound(id)), k)
  }

  // ---- a session ----

  /** The replies to the lines of a session, in order; blank lines are skipped. */
  function Serve(lines: seq<string>, k: nat, tools: Tools): seq<string> {
    if lines == [] then []
    else
      var line := Kept(lines[0], LINEBUF);
      if line == "" then Serve(lines[1..], k, tools)
      else
        var h := Handle(CStr(line), k, tools);
        (if h.reply == None then [] else [h.reply.value]) + Serve(lines[1..], h.calls, tools)
  }

  // ---- characters that never get out ----

  predicate Control(c: char) { c == '\n' || c == '\0' }

  lemma {:induction false} SkipSpaceLacks(s: string, c: char)
    requires c !in s
    ensures c !in SkipSpace(s)
  {
  }

  lemma {:induction false} FindPatLacks(s: string, pat: string, c: char)
    requires pat != "" && c !in s
    ensures FindPat(s, pat).Some? ==> c !in FindPat(s, pat).value
    decreases |s|
  {
    hide SkipSpace, FindPat;
    FindPatStep(s, pat);
    if |s| >= |pat| {
      if Starts(s, pat) {
        SkipSpaceLacks(s[|pat|..], c);
        FindPatLacks(s[|pat|..], pat, c);
      } else {
        FindPatLacks(s[1..], pat, c);
      }
    }
  }

  lemma {:induction false} StringTokenLacks(p: string, room: int, c: char)
    requires c !in p && c != '\"'
    ensures c !in StringToken(p, room)
    decreases |p|
  {
    if p != "" && room > 0 {
      if p[0] == '\\' && |p| > 1 {
        StringTokenLacks(p[2..], room - 2, c);
      } else {
        StringTokenLacks(p[1..], room - 1, c);
      }
    }
  }

  lemma {:induction false} PlainTokenLacks(p: string, room: int, c: char)
    requires c !in p
    ensures c !in PlainToken(p, room)
  {
    if p != "" && room > 0 { PlainTokenLacks(p[1..], room - 1, c); }
  }

  /** The id is a piece of the request. */
  lemma RawTokenLacks(json: string, key: string, outlen: nat, c: char)
    requires outlen >= 4 && c !in json && Control(c)
    ensures c !in RawToken(json, key, outlen)
  {
    hide SkipSpace, StringToken, PlainToken, FindPat;
    if FindKey(json, key).Some? {
      FindPatLacks(json, Quoted(key), c);
      var q := FindKey(json, key).value;
      SkipSpaceLacks(q, c);
      var v := SkipSpace(q);
      if Starts(v, "\"") { StringTokenLacks(v[1..], outlen - 3, c); }
      PlainTokenLacks(v, outlen - 1, c);
    }
  }

  lemma EncodedLacks(text: string, c: char)
    requires Control(c)
    ensures c !in Encoded(text)
  {
    hide Escape;
    EscapeHasNoControls(text);
  }

  lemma FlagLacks(b: bool, c: char)
    requires Control(c)
    ensures c !in Flag(b)
  {
  }

  lemma ToolResultLacks(o: Outcome, c: char)
    requires Control(c)
    ensures c !in ToolResult(o)
  {
    hide Encoded, Flag;
    EncodedLacks(o.text, c);
    FlagLacks(o.failed, c);
    var a, b := "{\"content\":[{\"type\":\"text\",\"text\":\"", "\"}],\"isError\":";
    assert c !in a;
    assert c !in b;
  }

  lemma RespondLacks(id: string, result: string, c: char)
    requires Control(c) && c !in id
    ensures c !in Respond(id, result) <==> c !in result
  {
  }

  lemma NotFoundLacks(id: string, c: char)
    requires Control(c) && c !in id
    ensures c !in NotFound(id)
  {
    hide NotFoundTail;
    NotFoundTailLacks(c);
  }

  lemma NotFoundTailLacks(c: char)
    requires Control(c)
    ensures c !in NotFoundTail()
  {
  }

  lemma PropertyLacks(name: string, about: string, c: char)
    requires Control(c) && c !in name && c !in about
    ensures c !in Property(name, about)
  {
  }

  lemma SchemaLacks(properties: string, needed: string, c: char)
    requires Control(c) && c !in properties && c !in needed
    ensures c !in Schema(properties, needed)
  {
  }

  lemma ToolLacks(name: string, about: string, properties: string, needed: string, c: char)
    requires Control(c) && c !in name && c !in about && c !in properties && c !in needed
    ensures c !in Tool(name, about, properties, needed)
  {
    hide Schema;
    SchemaLacks(properties, needed, c);
  }

  lemma AboutReadLacks(c: char)
    requires Control(c)
    ensures c !in AboutRead()
  {
    var a, b := "Read a text file from the Amiga ", "filesystem. Give an AmigaDOS path like ";
    assert c !in a;
    assert c !in b;
  }

  lemma AboutWriteLacks(c: char)
    requires Control(c)
    ensures c !in AboutWrite()
  {
    var a, b := "Write text to a file on the Amiga ", "filesystem, overwriting it. ";
    assert c !in a;
    assert c !in b;
  }

  lemma AboutRunLacks(c: char)
    requires Control(c)
    ensures c !in AboutRun()
  {
    var a, b := "Run an AmigaDOS shell command and ", "return its captured output. Give cmd.";
    assert c !in a;
    assert c !in b;
  }

  lemma ReadToolLacks(c: char)
    requires Control(c)
    ensures c !in ReadTool()
  {
    hide Tool, Property, AboutRead;
    AboutReadLacks(c);
    PropertyLacks("path", "AmigaDOS path to read", c);
    ToolLacks("read_file", AboutRead(), Property("path", "AmigaDOS path to read"), "\"path\"", c);
  }

  lemma WriteToolLacks(c: char)
    requires Control(c)
    ensures c !in WriteTool()
  {
    hide Tool, Property, AboutWrite;
    AboutWriteLacks(c);
    PropertyLacks("path", "AmigaDOS path to write", c);
    PropertyLacks("text", "file contents", c);
    ToolLacks("write_file", AboutWrite(),
        Property("path", "AmigaDOS path to write") + ("," + Property("text", "file contents")),
              "\"path\",\"text\"", c);
  }

  lemma RunToolLacks(c: char)
    requires Control(c)
    ensures c !in RunTool()
  {
    hide Tool, Property, AboutRun;
    AboutRunLacks(c);
    PropertyLacks("cmd", "AmigaDOS command line", c);
    ToolLacks("run_command", AboutRun(), Property("cmd", "AmigaDOS command line"), "\"cmd\"", c);
  }

  lemma ToolListLacks(c: char)
    requires Control(c)
    ensures c !in ToolList()
  {
    hide ReadTool, WriteTool, RunTool;
    ReadToolLacks(c);
    WriteToolLacks(c);
    RunToolLacks(c);
  }

  lemma InitializedLacks(version: string, c: char)
    requires Control(c)
    ensures c !in Initialized(version) <==> c !in version
  {
    hide ServerInfo;
    ServerInfoLacks(c);
  }

  lemma ServerInfoLacks(c: char)
    requires Control(c)
    ensures c !in ServerInfo()
  {
    var a, b := "\",\"capabilities\":{\"tools\":{}},", "\"serverInfo\":{\"name\":\"amiga-mcp\",";
    assert c !in a;
    assert c !in b;
  }

  predicate Known(verb: string) {
    verb == "initialize" || verb == "ping" || verb == "tools/list" || verb == "tools/call"
  }

  /** A request that gets no reply: a notification, or an unknown method without an id. */
  predicate Silent(req: string) {
    Notification(Method(req))
    || (Id(req) == "" && !Known(Method(req)))
  }

  /**
   One reply or none, as JSON-RPC wants; and a reply to a one-line request is one line, unless it is an
   `initialize` reply, which is one line exactly when the decoded protocol version is.
   */
  lemma ReplyIsOneLine(req: string, k: nat, tools: Tools)
    requires '\n' !in req
    ensures var r := Handle(req, k, tools).reply;
            && (r == None <==> Silent(req))
            && (r.Some? && Method(req) != "initialize" ==> '\n' !in r.value)
            && (r.Some? && Method(req) == "initialize" ==> ('\n' !in r.value <==> '\n' !in Version(req)))
  {
    hide RawToken, Respond, NotFound, ToolResult, ToolList, Initialized, CallOf, Perform, Method, Version, Params,
        Notification;
    ReplyLacks(req, k, tools, '\n');
    NotANotification();
  }

  lemma NotANotification()
    ensures !Notification("initialize") && !Notification("ping") && !Notification("tools/list")
            && !Notification("tools/call")
  {
    assert "notifications/"[0] == 'n';
    assert forall s :: Notification(s) ==> |s| >= 14 && s[..14][0] == 'n';
  }

  lemma ReplyLacks(req: string, k: nat, tools: Tools, c: char)
    requires Control(c) && c !in req
    ensures var r := Handle(req, k, tools).reply;
            r.Some? ==> if Method(req) == "initialize" then (c !in r.value <==> c !in Version(req)) else c !in r.value
  {
    hide RawToken, Respond, NotFound, ToolResult, ToolList, Initialized, CallOf, Perform, Method, Version, Params;
    var id := Id(req);
    RawTokenLacks(req, "id", IDBUF, c);
    InitializedLacks(Version(req), c);
    ToolListLacks(c);
    var done := ToolResult(Perform(CallOf(Params(req)), k, tools));
    ToolResultLacks(Perform(CallOf(Params(req)), k, tools), c);
    RespondLacks(id, Initialized(Version(req)), c);
    RespondLacks(id, ToolList(), c);
    RespondLacks(id, done, c);
    RespondLacks(id, "{}", c);
    NotFoundLacks(id, c);
  }

  /** No `initialize` request among the lines carries a line feed in its decoded version. */
  predicate TameVersions(lines: seq<string>) { forall i :: 0 <= i < |lines| ==> Tame(lines[i]) }

  predicate Tame(line: string) {
    var req := CStr(Kept(line, LINEBUF));
    Method(req) == "initialize" ==> '\n' !in Version(req)
  }

  /** All replies are single lines exactly when the versions are tame. */
  lemma {:induction false} RepliesAreLines(lines: seq<string>, k: nat, tools: Tools)
    requires OneLiners(lines)
    ensures OneLiners(Serve(lines, k, tools)) <==> TameVersions(lines)
  {
    hide Handle, Kept, CStr, Tame, Silent;
    if lines != [] {
      var line, rest := Kept(lines[0], LINEBUF), lines[1..];
      assert TameVersions(lines) <==> Tame(lines[0]) && TameVersions(rest) by { TameTail(lines); }
      assert OneLiners(rest);
      if line == "" {
        BlankIsTame(lines[0]);
        RepliesAreLines(rest, k, tools);
      } else {
        KeptIsOneLine(lines[0], LINEBUF);
        var h := Handle(CStr(line), k, tools);
        LineReply(lines[0], k, tools);
        RepliesAreLines(rest, h.calls, tools);
        OneLinersMore(h.reply, Serve(rest, h.calls, tools));
      }
    }
  }

  lemma TameTail(lines: seq<string>)
    requires lines != []
    ensures TameVersions(lines) <==> Tame(lines[0]) && TameVersions(lines[1..])
  {
    hide Tame;
    assert forall i :: 1 <= i < |lines| ==> lines[i] == lines[1..][i - 1];
    assert forall i :: 0 <= i < |lines| - 1 ==> lines[1..][i] == lines[i + 1];
  }

  lemma BlankIsTame(line: string)
    requires Kept(line, LINEBUF) == ""
    ensures Tame(line)
  {
    hide Kept;
    NothingFound("method");
    assert FindKey("", "method") == None;
    assert "" != "initialize";
  }

  /** A reply is one line exactly when its line is tame; no other line is answered with more than one. */
  lemma LineReply(line: string, k: nat, tools: Tools)
    requires '\n' !in Kept(line, LINEBUF)
    ensures var r := Handle(CStr(Kept(line, LINEBUF)), k, tools).reply;
            if r == None then Tame(line) else '\n' !in r.value <==> Tame(line)
  {
    hide Handle, Kept, CStr, Version, Method;
    var req := CStr(Kept(line, LINEBUF));
    ReplyIsOneLine(req, k, tools);
    NotANotification();
  }

  lemma OneLinersMore(reply: Option<string>, rest: seq<string>)
    ensures OneLiners((if reply == None then [] else [reply.value]) + rest)
            <==> (reply == None || '\n' !in reply.value) && OneLiners(rest)
  {
    if reply == None {
      assert [] + rest == rest;
    } else {
      var all := [reply.value] + rest;
      assert all[0] == reply.value;
      assert forall i :: 0 <= i < |rest| ==> all[i + 1] == rest[i];
      assert forall i :: 1 <= i < |all| ==> all[i] == rest[i - 1];
    }
  }

  lemma {:induction false} LinesAreOneLiners(s: string)
    ensures OneLiners(Lines(s))
    decreases |s|
  {
    if s != "" { LinesAreOneLiners(AfterLine(s)); }
  }

  /** How many of the lines are answered. */
  function Answered(lines: seq<string>): nat {
    if lines == [] then 0
    else
      var line := Kept(lines[0], LINEBUF);
      Answered(lines[1..]) + (if line == "" || Silent(CStr(line)) then 0 else 1)
  }

  lemma {:induction false} OneReplyEach(lines: seq<string>, k: nat, tools: Tools)
    requires OneLiners(lines)
    ensures |Serve(lines, k, tools)| == Answered(lines)
  {
    hide Handle, Kept, CStr, Method, Version, Silent;
    if lines != [] {
      var line := Kept(lines[0], LINEBUF);
      assert OneLiners(lines[1..]);
      KeptIsOneLine(lines[0], LINEBUF);
      ReplyIsOneLine(CStr(line), k, tools);
      OneReplyEach(lines[1..], if line == "" then k else Handle(CStr(line), k, tools).calls, tools);
    }
  }

  /**
   Framing of a whole session, for every input: cutting what the server wrote at its line feeds gives back the
   replies, one for each line that is neither blank nor silent, in order - exactly when no `initialize` request
   carries a line feed in its decoded version.
   */
  lemma OneReplyALine(input: string, tools: Tools)
    ensures var replies := Serve(Lines(input), 0, tools);
            && |replies| == Answered(Lines(input))
            && (Lines(Joined(replies)) == replies <==> TameVersions(Lines(input)))
  {
    hide Serve, Lines, Tame;
    LinesAreOneLiners(input);
    RepliesAreLines(Lines(input), 0, tools);
    OneReplyEach(Lines(input), 0, tools);
    var replies := Serve(Lines(input), 0, tools);
    if OneLiners(replies) { LinesOfJoined(replies); }
    LinesAreOneLiners(Joined(replies));
  }

  /** A request a client sends as one line. */
  predicate Sendable(req: string) { req != "" && |req| < LINEBUF && '\n' !in req && '\r' !in req && '\0' !in req }

  /** The replies to requests handled one after the other. */
  function Replies(reqs: seq<string>, k: nat, tools: Tools): seq<string> {
    if reqs == [] then []
    else
      var h := Handle(reqs[0], k, tools);
      (if h.reply == None then [] else [h.reply.value]) + Replies(reqs[1..], h.calls, tools)
  }

  lemma {:induction false} ServedAreSent(reqs: seq<string>, k: nat, tools: Tools)
    requires forall i :: 0 <= i < |reqs| ==> Sendable(reqs[i])
    ensures Serve(reqs, k, tools) == Replies(reqs, k, tools)
  {
    hide Handle, CStr;
    if reqs != [] {
      NothingReturned(reqs[0]);
      CStrOfNulFree(reqs[0]);
      ServedAreSent(reqs[1..], Handle(reqs[0], k, tools).calls, tools);
    }
  }

  /** Requests written one a line are the requests handled, in order. */
  lemma RequestsArrive(reqs: seq<string>, tools: Tools)
    requires forall i :: 0 <= i < |reqs| ==> Sendable(reqs[i])
    ensures Serve(Lines(Joined(reqs)), 0, tools) == Replies(reqs, 0, tools)
  {
    LinesOfJoined(reqs);
    ServedAreSent(reqs, 0, tools);
  }

  /** The same requests as a client writes them that ends its lines with CR and LF. */
  function Returned(reqs: seq<string>): seq<string> {
    if reqs == [] then [] else [reqs[0] + "\r"] + Returned(reqs[1..])
  }

  lemma {:induction false} ReturnedAreServed(reqs: seq<string>, k: nat, tools: Tools)
    requires forall i :: 0 <= i < |reqs| ==> Sendable(reqs[i])
    ensures OneLiners(Returned(reqs)) && Serve(Returned(reqs), k, tools) == Replies(reqs, k, tools)
  {
    hide Handle, CStr;
    if reqs != [] {
      var req := reqs[0];
      NoReturnsSnoc(req, '\r');
      NothingReturned(req);
      assert req + "" == req && Kept(req + "\r", LINEBUF) == req;
      CStrOfNulFree(req);
      assert Returned(reqs)[1..] == Returned(reqs[1..]);
      ReturnedAreServed(reqs[1..], Handle(req, k, tools).calls, tools);
    }
  }

  /** Carriage returns make no difference. */
  lemma ReturnsAreDropped(reqs: seq<string>, tools: Tools)
    requires forall i :: 0 <= i < |reqs| ==> Sendable(reqs[i])
    ensures Serve(Lines(Joined(Returned(reqs))), 0, tools) == Serve(Lines(Joined(reqs)), 0, tools)
  {
    hide Serve, Lines, Handle;
    RequestsArrive(reqs, tools);
    ReturnedAreServed(reqs, 0, tools);
    LinesOfJoined(Returned(reqs));
  }

  // ---- the buffers suffice ----

  lemma EncodedLength(text: string)
    ensures |Encoded(text)| < ESCBUF
  {
    hide Escape;
    if EscapeFits(text, ESCBUF) {
      if text == "" {
        EscapeNothing();
      } else {
        EscapePrefix(text, |text| - 1);
        assert text[..|text|] == text;
      }
    }
  }

  lemma ToolResultFits(o: Outcome)
    ensures |ToolResult(o)| < RESULTBUF
  {
    hide Encoded;
    EncodedLength(o.text);
  }

  lemma InitializedFits(req: string)
    ensures |Initialized(Version(req))| < RESULTBUF
  {
    hide FindKey, SkipSpace, BodyLen, Params;
  }

  lemma ToolListFits()
    ensures |ToolList()| < RESULTBUF
  {
    hide Property, Schema;
    assert |AboutRead()| < 200 && |AboutWrite()| < 200 && |AboutRun()| < 200;
    PropertyLength("path", "AmigaDOS path to read");
    PropertyLength("path", "AmigaDOS path to write");
    PropertyLength("text", "file contents");
    PropertyLength("cmd", "AmigaDOS command line");
    hide AboutRead, AboutWrite, AboutRun, Tool;
    var p := Property("path", "AmigaDOS path to write") + ("," + Property("text", "file contents"));
    ToolLength("read_file", AboutRead(), Property("path", "AmigaDOS path to read"), "\"path\"");
    ToolLength("write_file", AboutWrite(), p, "\"path\",\"text\"");
    ToolLength("run_command", AboutRun(), Property("cmd", "AmigaDOS command line"), "\"cmd\"");
  }

  lemma PropertyLength(name: string, about: string)
    ensures |Property(name, about)| < |name| + |about| + 50
  {
  }

  lemma ToolLength(name: string, about: string, properties: string, needed: string)
    ensures |Tool(name, about, properties, needed)| < |name| + |about| + |properties| + |needed| + 150
  {
  }

  lemma EnvelopeFits(id: string, result: string)
    requires |id| < IDBUF && |result| < RESULTBUF
    ensures |Respond(id, result)| < RESPBUF && |NotFound(id)| < RESPBUF
  {
  }

  /** No reply is ever cut by the `snprintf` of its envelope, nor its result before that. */
  lemma NeverTruncated(req: string, k: nat, tools: Tools)
    ensures var r := Handle(req, k, tools).reply; r.Some? ==> |r.value| < RESPBUF
  {
    hide RawToken, Respond, NotFound, ToolResult, ToolList, Initialized, CallOf, Perform, Method, Version, Params;
    var id, o := Id(req), Perform(CallOf(Params(req)), k, tools);
    InitializedFits(req);
    ToolListFits();
    ToolResultFits(o);
    EnvelopeFits(id, Initialized(Version(req)));
    EnvelopeFits(id, ToolList());
    EnvelopeFits(id, ToolResult(o));
    EnvelopeFits(id, "{}");
  }

  // ---- the C functions ----

  /** `get_raw_token`. */
  method GetRawToken(json: string, key: string, out: array<char>) returns (ok: bool)
    requires out.Length >= 4
    modifies out
    ensures var t := RawToken(json, key, out.Length);
            && ok == (t != "") && out[..|t|] == t && out[|t|] == '\0'
  {
    hide FindKey, SkipSpace, StringToken, PlainToken, Starts;
    var q := FindKeyPtr(json, key);
    if q == None {
      out[0] := '\0';
      return false;
    }
    var p := SkipBlanks(q.value);
    StartsChar(p, '\"');
    var o;
    if p != "" && p[0] == '\"' {
      out[0] := '\"';
      o := CopyString(p[1..], out);
    } else {
      o := CopyPlain(p, out);
    }
    out[o] := '\0';
    ok := o > 0;
  }

  lemma StringTokenStep(p: string, room: int)
    ensures StringToken(p, room) == if p == "" || room <= 0 then ""
                                    else if p[0] == '\\' && |p| > 1 then p[..2] + StringToken(p[2..], room - 2)
                                    else if p[0] == '\"' then "\""
                                    else [p[0]] + StringToken(p[1..], room - 1)
  {
  }

  method CopyString(s: string, out: array<char>) returns (o: nat)
    requires out.Length >= 4 && out[0] == '\"'
    modifies out
    ensures o < out.Length && out[..o] == "\"" + StringToken(s, out.Length - 3)
  {
    hide StringToken;
    var p := s;
    o := 1;
    ghost var whole := "\"" + StringToken(s, out.Length - 3);
    assert out[..1] == "\"";
    while p != "" && o < out.Length - 2
      invariant 1 <= o < out.Length
      invariant out[..o] + StringToken(p, out.Length - 2 - o) == whole
      decreases |p|
    {
      StringTokenStep(p, out.Length - 2 - o);
      ghost var head := out[..o];
      if p[0] == '\"' {
        o := PutText(out, o, "\"");
        return;
      }
      var n := if p[0] == '\\' && |p| > 1 then 2 else 1;
      assert n == 1 ==> p[..1] == [p[0]];
      Assoc(head, p[..n], StringToken(p[n..], out.Length - 2 - o - n));
      o := PutText(out, o, p[..n]);
      p := p[n..];
    }
    StringTokenStep(p, out.Length - 2 - o);
    assert out[..o] + "" == out[..o];
  }

  method CopyPlain(s: string, out: array<char>) returns (o: nat)
    requires out.Length >= 4
    modifies out
    ensures o < out.Length && out[..o] == PlainToken(s, out.Length - 1)
  {
    var p := s;
    o := 0;
    while p != "" && !Ends(p[0]) && o < out.Length - 1
      invariant o < out.Length
      invariant out[..o] + PlainToken(p, out.Length - 1 - o) == PlainToken(s, out.Length - 1)
      decreases |p|
    {
      ghost var head := out[..o];
      Assoc(head, [p[0]], PlainToken(p[1..], out.Length - 2 - o));
      out[o] := p[0];
      assert out[..o + 1] == head + [p[0]];
      p, o := p[1..], o + 1;
    }
    assert out[..o] + "" == out[..o];
  }

  /** `snprintf` of a text into a buffer: what does not fit is cut off. */
  method Snprintf(dst: array<char>, text: string) returns (n: int)
    requires dst.Length >= 1
    modifies dst
    ensures n == if |text| < dst.Length then |text| else -1
    ensures var t := Take(text, dst.Length - 1); dst[..|t|] == t && dst[|t|] == '\0'
  {
    var t := Take(text, dst.Length - 1);
    forall i | 0 <= i < |t| { dst[i] := t[i]; }
    dst[|t|] := '\0';
    assert dst[..|t|] == t;
    n := if |text| < dst.Length then |text| else -1;
  }

  method BuildResponse(dst: array<char>, id: string, result: string) returns (n: int)
    requires dst.Length == RESPBUF && |id| < IDBUF && |result| < RESULTBUF
    modifies dst
    ensures n == |Respond(id, result)| < dst.Length && dst[..n] == Respond(id, result) && dst[n] == '\0'
  {
    EnvelopeFits(id, result);
    hide Respond;
    n := Snprintf(dst, Respond(id, result));
  }

  method BuildToolResult(o: Outcome) returns (result: string)
    ensures result == ToolResult(o)
  {
    hide Escape;
    var esc := new char[ESCBUF];
    var n := JsonEscape(esc, o.text);
    var text := if n < 0 then TOO_LARGE else esc[..n];
    result := "{\"content\":[{\"type\":\"text\",\"text\":\"" + (text + ("\"}],\"isError\":" + (Flag(o.failed) + "}")));
  }

  method SpanInto(json: string, key: string, size: nat) returns (s: string)
    requires size >= 1
    ensures s == SpanWithin(json, key, size)
  {
    var span := CopySpan(json, key, size);
    s := if span == None then "" else span.value;
  }

  method DispatchToolCall(params: string, k: nat, tools: Tools) returns (result: string)
    ensures result == ToolResult(Perform(CallOf(params), k, tools))
  {
    hide ToolResult, GetString, SpanWithin, Take;
    var ok, name := ReadString(params, "name", NAMEBUF);
    var args := SpanInto(params, "arguments", ARGBUF);
    var call;
    if name == "read_file" {
      var found, path := ReadString(args, "path", PATHBUF);
      call := if found then ReadFile(path) else MissingArgument("path");
    } else if name == "write_file" {
      var found, path := ReadString(args, "path", PATHBUF);
      var has, text := ReadString(args, "text", TEXTBUF);
      call := if found then WriteFile(path, text) else MissingArgument("path");
    } else if name == "run_command" {
      var found, cmd := ReadString(args, "cmd", CMDBUF);
      call := if found then RunCommand(cmd) else MissingArgument("cmd");
    } else {
      call := UnknownTool(name);
    }
    result := BuildToolResult(Perform(call, k, tools));
  }

  /** `handle_request`: whether `resp` holds a reply, and how many tool requests came up to now. */
  method HandleRequest(req: string, resp: array<char>, k: nat, tools: Tools) returns (send: bool, n: int, calls: nat)
    requires resp.Length == RESPBUF
    modifies resp
    ensures var h := Handle(req, k, tools);
            && send == h.reply.Some? && calls == h.calls
            && (send ==> 0 <= n == |h.reply.value| < resp.Length && resp[..n] == h.reply.value && resp[n] == '\0')
  {
    hide GetString, RawToken, Respond, ToolResult, Initialized, ToolList, CallOf, Perform, SpanWithin, Notification,
        NotFound;
    var ok, verb := ReadString(req, "method", NAMEBUF);
    var idbuf := new char[IDBUF];
    var haveId := GetRawToken(req, "id", idbuf);
    var id := idbuf[..|RawToken(req, "id", IDBUF)|];
    var params := SpanInto(req, "params", PARAMBUF);
    calls, n, send := k, 0, true;
    if Notification(verb) {
      send := false;
    } else if verb == "initialize" {
      var found, pv := ReadString(params, "protocolVersion", VERSIONBUF);
      InitializedFits(req);
      n := BuildResponse(resp, id, Initialized(if pv == "" then PROTO_VERSION else pv));
    } else if verb == "ping" {
      n := BuildResponse(resp, id, "{}");
    } else if verb == "tools/list" {
      ToolListFits();
      n := BuildResponse(resp, id, ToolList());
    } else if verb == "tools/call" {
      var result := DispatchToolCall(params, k, tools);
      ToolResultFits(Perform(CallOf(params), k, tools));
      n := BuildResponse(resp, id, result);
      calls := k + 1;
    } else if !haveId {
      send := false;
    } else {
      EnvelopeFits(id, "");
      n := Snprintf(resp, NotFound(id));
    }
  }

  /** What a string field of the wire shows of a buffer: the text before its first NUL. */
  lemma TextOfBuffer(buf: seq<char>, n: nat)
    requires n < |buf| && buf[n] == '\0' && '\0' !in buf[..n]
    ensures CStr(buf) == buf[..n]
  {
    CStrStops(buf, n);
    CStrOfNulFree(buf[..n]);
  }

  lemma ReplyIsText(req: string, k: nat, tools: Tools)
    requires '\0' !in req
    ensures var r := Handle(req, k, tools).reply; r.Some? ==> '\0' !in r.value
  {
    ReplyLacks(req, k, tools, '\0');
    VersionIsText(req);
  }

  lemma VersionIsText(req: string)
    ensures '\0' !in Version(req)
  {
    hide GetString, Params;
    FieldIsText(Params(req), "protocolVersion", VERSIONBUF);
  }

  lemma FieldIsText(s: string, key: string, size: nat)
    ensures '\0' !in GetStringOrEmpty(s, key, size)
  {
    hide FindKey, SkipSpace, BodyLen, UnescapeWithin;
  }

  /** The output after serving the rest of the input. */
  function Output(stdin: string, k: nat, tools: Tools): string { Joined(Serve(Lines(stdin), k, tools)) }

  /** What one reply adds to the output. */
  function Shown(reply: Option<string>): string {
    match reply case None => "" case Some(r) => r + "\n"
  }

  lemma JoinedMore(reply: Option<string>, rest: seq<string>)
    ensures Joined((if reply == None then [] else [reply.value]) + rest) == Shown(reply) + Joined(rest)
  {
    if reply == None {
      assert [] + rest == rest;
      assert "" + Joined(rest) == Joined(rest);
    } else {
      assert ([reply.value] + rest)[1..] == rest;
    }
  }

  lemma OutputStep(stdin: string, k: nat, tools: Tools)
    ensures stdin == "" ==> Output(stdin, k, tools) == ""
    ensures stdin != "" ==>
              var line := Kept(LineOf(stdin), LINEBUF);
              var h := if line == "" then Handled(None, k) else Handle(CStr(line), k, tools);
              Output(stdin, k, tools) == Shown(h.reply) + Output(AfterLine(stdin), h.calls, tools)
  {
    hide Handle, Kept, LineOf, AfterLine, Joined, CStr, Shown;
    if stdin != "" {
      assert Lines(stdin)[0] == LineOf(stdin) && Lines(stdin)[1..] == Lines(AfterLine(stdin));
      var line, rest := Kept(LineOf(stdin), LINEBUF), Lines(AfterLine(stdin));
      var h := if line == "" then Handled(None, k) else Handle(CStr(line), k, tools);
      JoinedMore(h.reply, Serve(rest, h.calls, tools));
      assert [] + Serve(rest, h.calls, tools) == Serve(rest, h.calls, tools);
    } else {
      JoinedNothing();
    }
  }

  lemma JoinedNothing()
    ensures Joined([]) == ""
  {
  }

  /** `run_server`: serves the whole input. */
  method RunServer(io: Stdio, tools: Tools)
    modifies io
    ensures io.stdin == "" && io.stdout == old(io.stdout) + Joined(Serve(Lines(old(io.stdin)), 0, tools))
  {
    hide Handle, Kept, LineOf, AfterLine, Serve, Output;
    var line, resp, k: nat := new char[LINEBUF], new char[RESPBUF], 0;
    assert Output(io.stdin, 0, tools) == Joined(Serve(Lines(io.stdin), 0, tools)) by { OutputIs(io.stdin, tools); }
    while true
      invariant io.stdout + Output(io.stdin, k, tools) == old(io.stdout) + Output(old(io.stdin), 0, tools)
      decreases |io.stdin|
    {
      ghost var before, rest := io.stdin, AfterLine(io.stdin);
      OutputStep(before, k, tools);
      var n := io.ReadLine(line);
      if n < 0 { break; }
      if n == 0 {
        assert Shown(None) + Output(rest, k, tools) == Output(rest, k, tools);
        continue;
      }
      Assoc(io.stdout, Shown(Handle(CStr(line[..n]), k, tools).reply),
          Output(rest, Handle(CStr(line[..n]), k, tools).calls, tools));
      var send, calls := ServeLine(io, line, n, resp, k, tools);
      k := calls;
    }
    assert io.stdout + "" == io.stdout;
  }

  lemma OutputIs(stdin: string, tools: Tools)
    ensures Output(stdin, 0, tools) == Joined(Serve(Lines(stdin), 0, tools))
  {
  }

  /** One request and its reply, if it gets one. */
  method ServeLine(io: Stdio, line: array<char>, n: nat, resp: array<char>, k: nat, tools: Tools)
      returns (send: bool, calls: nat)
    requires n < line.Length && line[n] == '\0' && resp.Length == RESPBUF && line != resp
    modifies io`stdout, resp
    ensures var h := Handle(CStr(line[..n]), k, tools);
            && send == h.reply.Some? && calls == h.calls
            && io.stdout == old(io.stdout) + Shown(h.reply)
  {
    hide Handle, CStr;
    var req := CStr(line[..]);
    CStrStops(line[..], n);
    assert line[..][..n] == line[..n];
    var len;
    send, len, calls := HandleRequest(req, resp, k, tools);
    if send {
      assert '\0' !in req by { ReqIsText(line[..]); }
      ReplyIsText(req, k, tools);
      assert resp[..][..len] == resp[..len];
      TextOfBuffer(resp[..], len);
      io.PutLine(CStr(resp[..]));
    } else {
      assert io.stdout + "" == io.stdout;
    }
  }

  lemma ReqIsText(s: string)
    ensures '\0' !in CStr(s)
  {
  }
}
