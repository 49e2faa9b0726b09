/**
 The reply to an MCP `initialize` request.  The code puts the decoded protocol version between quotes as it is, so
 what it writes is a reply object exactly when that version is a string body.
 */
module McpInitialize {
  import opened Wrappers
  import opened Bytes
  import opened CText
  import opened JsonText
  import opened JsonScan
  import opened JsonValue
  import opened JsonLookup
  import opened JsonUnique
  import opened McpServer
  import opened McpExchange

  const CAPABILITIES := Member("capabilities", Obj([Member("tools", Obj([]))]))
  const SERVER := Member("serverInfo", Obj([Member("name", Str("amiga-mcp")), Member("version", Str("1.0.0"))]))

  /** The result object for a version written `raw`. */
  function VersionJson(raw: string): Json { Obj([Member("protocolVersion", Str(raw)), CAPABILITIES, SERVER]) }

  // ---- the text ----

  lemma ThreeFields(a: Member, b: Member, c: Member)
    ensures Print(Obj([a, b, c]), COMPACT) == "{" + (Field(a) + ("," + (Field(b) + ("," + (Field(c) + "}")))))
  {
    hide Print, KeyPart;
    PrintOne(c, COMPACT);
    PrintMore(b, [c]);
    PrintMore(a, [b, c]);
    assert [b] + [c] == [b, c] && [a] + [b, c] == [a, b, c];
    FieldIs(a);
    FieldIs(b);
    FieldIs(c);
    PrintObject([a, b, c]);
    hide PrintMembers;
    var fa, fb, fc := Field(a), Field(b), Field(c);
    Assoc(KeyPart(a.key, COMPACT), Print(a.value, COMPACT), "," + PrintMembers([b, c], COMPACT));
    Assoc(KeyPart(b.key, COMPACT), Print(b.value, COMPACT), "," + PrintMembers([c], COMPACT));
    GlueThree(fa, fb, fc);
  }

  lemma FieldIs(m: Member)
    ensures Field(m) == KeyPart(m.key, COMPACT) + Print(m.value, COMPACT)
  {
    hide Print;
    assert KeyPart(m.key, COMPACT) == Quoted(m.key) + ":";
  }

  lemma GlueThree(a: string, b: string, c: string)
    ensures "{" + ((a + ("," + (b + ("," + c)))) + "}") == "{" + (a + ("," + (b + ("," + (c + "}")))))
  {
    var d := "," + c;
    var e := "," + (b + d);
    Assoc(a, e, "}");
    Assoc(",", b + d, "}");
    Assoc(b, d, "}");
    Assoc(",", c, "}");
  }

  lemma CapabilitiesText()
    ensures Field(CAPABILITIES) == "\"capabilities\":" + "{\"tools\":{}}"
  {
    var tools := Member("tools", Obj([]));
    ToolsText();
    OneField(tools);
    FieldDef(CAPABILITIES);
    hide Field, Print;
    assert Quoted("capabilities") + ":" == "\"capabilities\":";
    assert "{" + "\"tools\":{}" + "}" == "{\"tools\":{}}";
  }

  lemma ToolsText()
    ensures Field(Member("tools", Obj([]))) == "\"tools\":{}"
  {
    assert Print(Obj([]), COMPACT) == "{}";
    hide Print;
    assert Quoted("tools") + ":" == "\"tools\":";
  }

  lemma ServerText()
    ensures Field(SERVER) == "\"serverInfo\":" + ("{\"name\":\"amiga-mcp\"," + ("\"version\":\"1.0.0\"" + "}"))
  {
    var name, version := Member("name", Str("amiga-mcp")), Member("version", Str("1.0.0"));
    NameText();
    VersionText();
    hide Print;
    TwoFields(name, version);
    GlueServer(Field(name), Field(version));
    hide Field;
    assert Field(SERVER) == Quoted("serverInfo") + ":" + Print(SERVER.value, COMPACT) by { FieldDef(SERVER); }
    assert Quoted("serverInfo") + ":" == "\"serverInfo\":";
  }

  lemma FieldDef(m: Member)
    ensures Field(m) == Quoted(m.key) + ":" + Print(m.value, COMPACT)
  {
  }

  lemma NameText()
    ensures Field(Member("name", Str("amiga-mcp"))) == "\"name\":\"amiga-mcp\""
  {
    StrText("amiga-mcp");
    hide Print;
    assert Quoted("name") + ":" == "\"name\":" && Quoted("amiga-mcp") == "\"amiga-mcp\"";
  }

  lemma VersionText()
    ensures Field(Member("version", Str("1.0.0"))) == "\"version\":\"1.0.0\""
  {
    StrText("1.0.0");
    hide Print;
    assert Quoted("version") + ":" == "\"version\":" && Quoted("1.0.0") == "\"1.0.0\"";
  }

  lemma GlueServer(name: string, version: string)
    requires name == "\"name\":\"amiga-mcp\""
    ensures "{" + name + "," + version + "}" == "{\"name\":\"amiga-mcp\"," + (version + "}")
  {
    assert "{" + name + "," == "{\"name\":\"amiga-mcp\",";
    Assoc("{" + name + ",", version, "}");
  }

  /** The text after the version is that of the other fields. */
  lemma ServerInfoText()
    ensures ServerInfo() == "\"" + ("," + (Field(CAPABILITIES) + ("," + (Field(SERVER) + "}"))))
  {
    CapabilitiesText();
    ServerText();
    hide Field;
    GlueInfo();
  }

  lemma GlueInfo()
    ensures var server := "\"serverInfo\":" + ("{\"name\":\"amiga-mcp\"," + ("\"version\":\"1.0.0\"" + "}"));
            "\"" + ("," + (("\"capabilities\":" + "{\"tools\":{}}") + ("," + (server + "}")))) == ServerInfo()
  {
    var a, b := "\",\"capabilities\":{\"tools\":{}},", "\"serverInfo\":{\"name\":\"amiga-mcp\",";
    var c := "\"version\":\"1.0.0\"}}";
    InfoPieces();
    assert "\"version\":\"1.0.0\"" + "}" + "}" == c;
    var cap := "\"capabilities\":" + "{\"tools\":{}}";
    GlueParts(cap, "\"serverInfo\":", "{\"name\":\"amiga-mcp\",", "\"version\":\"1.0.0\"");
    assert ServerInfo() == a + (b + c);
  }

  lemma InfoPieces()
    ensures "\"" + ("," + (("\"capabilities\":" + "{\"tools\":{}}") + ",")) == "\",\"capabilities\":{\"tools\":{}},"
    ensures "\"serverInfo\":" + "{\"name\":\"amiga-mcp\"," == "\"serverInfo\":{\"name\":\"amiga-mcp\","
  {
  }

  lemma GlueParts(cap: string, key: string, name: string, version: string)
    ensures "\"" + ("," + (cap + ("," + ((key + (name + (version + "}"))) + "}"))))
         == ("\"" + ("," + (cap + ","))) + ((key + name) + (version + "}" + "}"))
  {
    var rest := (key + name) + (version + "}" + "}");
    assert (key + (name + (version + "}"))) + "}" == rest;
    Assoc(cap, ",", rest);
    Assoc(",", cap + ",", rest);
    Assoc("\"", "," + (cap + ","), rest);
  }

  /** The result of an `initialize` reply is the printed object, whatever the version. */
  lemma InitializedIsPrinted(raw: string)
    ensures Initialized(raw) == Print(VersionJson(raw), COMPACT)
  {
    ServerInfoText();
    var pv := Member("protocolVersion", Str(raw));
    ThreeFields(pv, CAPABILITIES, SERVER);
    StrText(raw);
    hide Print, ServerInfo;
    var rest := "," + (Field(CAPABILITIES) + ("," + (Field(SERVER) + "}")));
    FieldText(pv, raw);
    GlueVersion(raw, rest);
  }

  lemma FieldText(m: Member, raw: string)
    requires m == Member("protocolVersion", Str(raw))
    ensures Field(m) == "\"protocolVersion\":" + ("\"" + (raw + "\""))
  {
    StrText(raw);
    hide Print;
    assert Quoted("protocolVersion") + ":" == "\"protocolVersion\":";
    assert Quoted(raw) == "\"" + (raw + "\"");
  }

  lemma GlueVersion(raw: string, rest: string)
    ensures "{" + (("\"protocolVersion\":" + ("\"" + (raw + "\""))) + rest)
         == "{\"protocolVersion\":\"" + (raw + ("\"" + rest))
  {
    var key := "{" + "\"protocolVersion\":" + "\"";
    assert key == "{\"protocolVersion\":\"";
    assert "{" + (("\"protocolVersion\":" + ("\"" + (raw + "\""))) + rest) == key + (raw + ("\"" + rest));
  }

  // ---- what it is ----

  lemma InitKeys()
    ensures PlainKey("protocolVersion") && PlainKey("capabilities") && PlainKey("serverInfo") && PlainKey("tools")
    ensures PlainKey("name") && PlainKey("version") && SearchKey("protocolVersion")
  {
  }

  lemma CapabilitiesValid(key: string)
    requires key == "id" || key == "protocolVersion"
    ensures Valid(CAPABILITIES.value) && FirstKey(CAPABILITIES.value, key) == None
  {
    InitKeys();
    hide PlainKey, ValidBody, Matches;
    var tools := Member("tools", Obj([]));
    NoMember(key);
    ObjectOf([], key);
    assert key != "tools" && [tools] + [] == [tools];
    hide FirstKey, Valid;
    MoreMember(tools, [], key);
    ObjectOf([tools], key);
  }

  lemma ServerValid(key: string)
    requires key == "id" || key == "protocolVersion"
    ensures Valid(SERVER.value) && FirstKey(SERVER.value, key) == None
  {
    InitKeys();
    KeysDiffer(key);
    hide PlainKey, ValidBody, Matches, FirstKey, Valid;
    ServerStrings(key);
    TwoMembers(Member("name", Str("amiga-mcp")), Member("version", Str("1.0.0")), key);
  }

  lemma ServerStrings(key: string)
    ensures Valid(Str("amiga-mcp")) && FirstKey(Str("amiga-mcp"), key) == None
    ensures Valid(Str("1.0.0")) && FirstKey(Str("1.0.0"), key) == None
  {
    hide FirstKey, Valid;
    PlainValue("amiga-mcp", key);
    PlainValue("1.0.0", key);
  }

  lemma PlainValue(raw: string, key: string)
    requires '\"' !in raw && '\\' !in raw
    ensures Valid(Str(raw)) && FirstKey(Str(raw), key) == None
  {
    PlainKeyIsBody(raw);
  }

  /** The reply is well formed, with id and version where they belong, when the version is a body. */
  lemma ReplyIsValid(id: Json, raw: string, key: string)
    requires Valid(id) && Scalar(id) && ValidBody(raw) && (key == "id" || key == "protocolVersion")
    ensures Valid(ReplyJson(id, VersionJson(raw)))
    ensures FirstKey(ReplyJson(id, VersionJson(raw)), key) == Some(if key == "id" then id else Str(raw))
  {
    InitKeys();
    ReplyKeys();
    PlainKeyIsBody("2.0");
    VersionHasNoKey(key);
    ScalarHasNoKey(id, key, COMPACT);
    ResultFields(raw, key);
    assert "jsonrpc" != key && "result" != key && |"id"| != |"protocolVersion"|;
    hide FirstKey, Valid, ValidBody, PlainKey, VersionJson;
    ThreeMembers(Member("jsonrpc", Str("2.0")), Member("id", id), Member("result", VersionJson(raw)), key);
  }

  lemma ResultFields(raw: string, key: string)
    requires ValidBody(raw) && (key == "id" || key == "protocolVersion")
    ensures Valid(VersionJson(raw))
    ensures FirstKey(VersionJson(raw), key) == if key == "id" then None else Some(Str(raw))
  {
    InitKeys();
    KeysDiffer(key);
    VersionField(raw, key);
    hide ValidBody, PlainKey, Matches, FirstKey, Valid;
    CapabilitiesValid(key);
    ServerValid(key);
    FirstOfThree(Member("protocolVersion", Str(raw)), CAPABILITIES, SERVER, key);
  }

  lemma KeysDiffer(key: string)
    requires key == "id" || key == "protocolVersion"
    ensures key != CAPABILITIES.key && key != SERVER.key && (key == "id" <==> key != "protocolVersion")
    ensures key != "name" && key != "version"
  {
    assert |"id"| == 2 && |"protocolVersion"| == 15 && |"capabilities"| == 12 && |"serverInfo"| == 10;
    assert |"name"| == 4 && |"version"| == 7;
  }

  lemma VersionField(raw: string, key: string)
    requires ValidBody(raw)
    ensures Valid(Str(raw)) && FirstKey(Str(raw), key) == None
  {
  }

  lemma FirstOfThree(a: Member, b: Member, c: Member, key: string)
    requires PlainKey(a.key) && PlainKey(b.key) && PlainKey(c.key) && Valid(a.value) && Valid(b.value) && Valid(c.value)
    requires FirstKey(a.value, key) == None && FirstKey(b.value, key) == None && FirstKey(c.value, key) == None
    requires b.key != key && c.key != key
    ensures Valid(Obj([a, b, c]))
    ensures FirstKey(Obj([a, b, c]), key) == if a.key == key then Some(a.value) else None
  {
    hide FirstKey, Valid, PlainKey;
    TwoMembers(b, c, key);
    ObjectOf([b, c], key);
    MoreMember(a, [b, c], key);
    assert [a] + [b, c] == [a, b, c];
    ObjectOf([a, b, c], key);
  }

  lemma ObjectOf(ms: seq<Member>, key: string)
    ensures Valid(Obj(ms)) <==> ValidMembers(ms)
    ensures FirstKey(Obj(ms), key) == FirstKeyMembers(ms, key)
  {
  }

  lemma NoMember(key: string)
    ensures ValidMembers([]) && FirstKeyMembers([], key) == None
  {
  }

  /** A reply object for some version. */
  ghost predicate IsReply(text: string, id: Json) {
    exists raw :: ValidBody(raw) && text == Print(ReplyJson(id, VersionJson(raw)), COMPACT)
  }

  lemma ReplyText(id: Json, raw: string)
    requires Valid(id)
    ensures Respond(Print(id, COMPACT), Initialized(raw)) == Print(ReplyJson(id, VersionJson(raw)), COMPACT)
  {
    hide Print, VersionJson, ReplyJson, Respond, Initialized;
    InitializedIsPrinted(raw);
    RespondIsPrinted(id, VersionJson(raw));
  }

  /** The version can be cut out of the text again. */
  lemma SameVersion(id: string, v: string, w: string)
    requires Respond(id, Initialized(v)) == Respond(id, Initialized(w))
    ensures v == w
  {
    hide ServerInfo, OrNull;
    var head, key := "{\"jsonrpc\":\"2.0\",\"id\":", ",\"result\":";
    var x, y := Initialized(v) + "}", Initialized(w) + "}";
    Peel(head, head, OrNull(id) + (key + x), OrNull(id) + (key + y));
    Peel(OrNull(id), OrNull(id), key + x, key + y);
    Peel(key, key, x, y);
    assert |Initialized(v)| == |Initialized(w)|;
    Peel(Initialized(v), Initialized(w), "}", "}");
    var pre := "{\"protocolVersion\":\"";
    Peel(pre, pre, v + ServerInfo(), w + ServerInfo());
    Peel(v, w, ServerInfo(), ServerInfo());
  }

  /** The server's answer to `initialize` is a reply object exactly when the decoded version is a string body. */
  lemma InitializeIsReplyIff(req: string, k: nat, tools: Tools, id: Json)
    requires Method(req) == "initialize" && Valid(id) && Scalar(id) && Id(req) == Print(id, COMPACT)
    ensures Handle(req, k, tools).reply.Some?
    ensures IsReply(Handle(req, k, tools).reply.value, id) <==> ValidBody(Version(req))
  {
    NotANotification();
    hide Print, Respond, Initialized, ValidBody, Version, Method, Id, ReplyJson, VersionJson, Notification, Valid;
    var v, text := Version(req), Respond(Print(id, COMPACT), Initialized(Version(req)));
    ReplyText(id, v);
    if IsReply(text, id) {
      var raw :| ValidBody(raw) && text == Print(ReplyJson(id, VersionJson(raw)), COMPACT);
      ReplyText(id, raw);
      SameVersion(Print(id, COMPACT), v, raw);
    }
  }

  /** Out of such a reply a client reads its id and the version, decoded once more. */
  lemma InitializeReads(id: Json, v: string, outlen: nat)
    requires Valid(id) && Scalar(id) && TokenFits(id) && ValidBody(v)
    ensures var t := Respond(Print(id, COMPACT), Initialized(v));
            && RawToken(t, "id", IDBUF) == Print(id, COMPACT)
            && GetString(t, "protocolVersion", outlen) == Some(CStr(UnescapeWithin(v, outlen - 4)))
            && ('\\' !in v && '\0' !in v && |v| <= outlen - 4 ==> GetString(t, "protocolVersion", outlen) == Some(v))
  {
    ShortKeys();
    InitKeys();
    hide Print, Valid, FirstKey, RawToken, GetString, Respond, Initialized, TokenFits, SearchKey, ReplyJson;
    hide VersionJson, ValidBody, CStr, UnescapeWithin, PlainKey;
    var j := ReplyJson(id, VersionJson(v));
    ReplyText(id, v);
    ReplyIsValid(id, v, "id");
    ReplyIsValid(id, v, "protocolVersion");
    TokenEchoes(j, "id", COMPACT, id);
    LookupString(j, "protocolVersion", COMPACT, outlen);
    if '\\' !in v && '\0' !in v && |v| <= outlen - 4 {
      UnescapePlain(v);
      LookupFits(j, "protocolVersion", COMPACT, outlen, v);
    }
  }
}
