/**
 What the two ends of an MCP exchange read out of each other's lines: the server out of a printed request, the
 client out of a reply.
 */
module McpExchange {
  import opened Wrappers
  import opened Bytes
  import opened CText
  import opened JsonText
  import opened JsonScan
  import opened JsonValue
  import opened JsonLookup
  import opened McpServer

  // ---- ids ----

  predicate Scalar(v: Json) { v.Lit? || v.Str? }

  /** A scalar whose token fits the id buffer. */
  predicate TokenFits(v: Json) {
    match v
    case Lit(text) => |text| < IDBUF
    case Str(raw) => |raw| <= IDBUF - 4
    case _ => false
  }

  lemma {:induction false} PlainTokenStops(text: string, b: string, room: nat)
    requires forall i :: 0 <= i < |text| ==> LitChar(text[i])
    requires b == "" || Ends(b[0])
    ensures PlainToken(text + b, room) == Take(text, room)
  {
    hide LitChar, Ends, PlainToken;
    var s := text + b;
    PlainTokenStep(s, room);
    if text == "" {
      assert s == b;
    } else if room > 0 {
      assert s[0] == text[0] && s[1..] == text[1..] + b;
      PlainTokenStops(text[1..], b, room - 1);
      LitCharGoesOn(text[0]);
      assert Take(text, room) == [text[0]] + Take(text[1..], room - 1);
    }
  }

  lemma LitCharGoesOn(c: char)
    requires LitChar(c)
    ensures !Ends(c)
  {
  }

  lemma PlainTokenStep(p: string, room: int)
    ensures PlainToken(p, room) == if p == "" || room <= 0 || Ends(p[0]) then ""
            else [p[0]] + PlainToken(p[1..], room - 1)
  {
  }

  /** A body begins with one plain character or with an escape of two, and goes on as a body. */
  function FirstUnit(raw: string): (n: nat)
    requires ValidBody(raw) && raw != ""
    ensures 1 <= n <= 2 && n <= |raw| && (n == 2 <==> raw[0] == '\\') && raw[0] != '\"' && ValidBody(raw[n..])
  {
    if raw[0] == '\\' then 2 else 1
  }

  /** One unit of a body is copied whole. */
  lemma UnitCopied(raw: string, b: string, room: int)
    requires ValidBody(raw) && raw != "" && room > 0
    ensures var n := FirstUnit(raw);
            && raw == raw[..n] + raw[n..]
            && StringToken(raw + ("\"" + b), room) == raw[..n] + StringToken(raw[n..] + ("\"" + b), room - n)
  {
    hide StringToken, ValidBody, FirstUnit;
    var s, n := raw + ("\"" + b), FirstUnit(raw);
    StringTokenStep(s, room);
    assert s[0] == raw[0] && s[n..] == raw[n..] + ("\"" + b) && s[..n] == raw[..n];
    assert n == 1 ==> raw[..n] == [s[0]];
  }

  /** The closing quote is copied when the body ends before the room does. */
  lemma {:induction false} StringTokenWhole(raw: string, b: string, room: int)
    requires ValidBody(raw) && |raw| < room
    ensures StringToken(raw + ("\"" + b), room) == raw + "\""
    decreases |raw|
  {
    hide StringToken, ValidBody, FirstUnit;
    if raw == "" {
      StringTokenStep("\"" + b, room);
      assert raw + ("\"" + b) == "\"" + b;
    } else {
      var n := FirstUnit(raw);
      UnitCopied(raw, b, room);
      StringTokenWhole(raw[n..], b, room - n);
      Assoc(raw[..n], raw[n..], "\"");
    }
  }

  /** Otherwise the token is cut inside the body. */
  lemma {:induction false} StringTokenCut(raw: string, b: string, room: int)
    requires ValidBody(raw) && room <= |raw|
    ensures StringToken(raw + ("\"" + b), room) <= raw
    decreases |raw|
  {
    hide StringToken, ValidBody, FirstUnit;
    if room > 0 {
      var n := FirstUnit(raw);
      UnitCopied(raw, b, room);
      StringTokenCut(raw[n..], b, room - n);
      PrefixAfter(raw[..n], StringToken(raw[n..] + ("\"" + b), room - n), raw[n..]);
    } else {
      StringTokenStep(raw + ("\"" + b), room);
    }
  }

  lemma PrefixAfter(head: string, a: string, b: string)
    requires a <= b
    ensures head + a <= head + b
  {
    assert b == a + b[|a|..];
    Assoc(head, a, b[|a|..]);
  }

  /**
   `get_raw_token` on every printed document whose first matching member is a scalar: its text, exactly when it
   fits; a longer string loses its closing quote.
   */
  lemma TokenEchoes(j: Json, key: string, st: Style, v: Json)
    requires Valid(j) && st.Valid() && SearchKey(key) && FirstKey(j, key) == Some(v) && Scalar(v)
    ensures RawToken(Print(j, st), key, IDBUF) == Print(v, st) <==> TokenFits(v)
    ensures v.Str? && !TokenFits(v) ==> RawToken(Print(j, st), key, IDBUF) <= "\"" + v.raw
  {
    hide Valid, Print, FindKey, SkipSpace, FirstKey, StringToken, PlainToken, SearchKey, Follows;
    var tail := Lookup(j, key, st);
    var text := Print(v, st) + tail;
    FirstKeyValid(j, key);
    PrintHead(v, st, tail);
    StartsChar(text, '\"');
    FollowsEnds(tail);
    match v {
      case Lit(t) => LitToken(t, st, tail);
      case Str(raw) => StrToken(raw, st, tail);
    }
  }

  lemma FollowsEnds(b: string)
    requires Follows(b)
    ensures b == "" || Ends(b[0])
  {
    if b != "" && !IsSpace(b[0]) { StartsChar(b, ':'); }
  }

  lemma LitToken(t: string, st: Style, tail: string)
    requires Valid(Lit(t)) && (tail == "" || Ends(tail[0]))
    ensures PlainToken(Print(Lit(t), st) + tail, IDBUF - 1) == Print(Lit(t), st) <==> |t| < IDBUF
  {
    PlainTokenStops(t, tail, IDBUF - 1);
  }

  lemma StrToken(raw: string, st: Style, tail: string)
    requires Valid(Str(raw))
    ensures "\"" + StringToken((Print(Str(raw), st) + tail)[1..], IDBUF - 3) == Print(Str(raw), st)
            <==> |raw| <= IDBUF - 4
    ensures |raw| > IDBUF - 4 ==> "\"" + StringToken((Print(Str(raw), st) + tail)[1..], IDBUF - 3) <= "\"" + raw
  {
    hide StringToken, ValidBody;
    var p := Print(Str(raw), st);
    assert (p + tail)[1..] == raw + ("\"" + tail);
    if |raw| <= IDBUF - 4 {
      StringTokenWhole(raw, tail, IDBUF - 3);
      assert p == "\"" + (raw + "\"");
    } else {
      StringTokenCut(raw, tail, IDBUF - 3);
      PrefixAfter("\"", StringToken(raw + ("\"" + tail), IDBUF - 3), raw);
    }
  }

  /** A request without an id. */
  lemma NoToken(j: Json, key: string, st: Style)
    requires Valid(j) && st.Valid() && SearchKey(key) && FirstKey(j, key) == None
    ensures RawToken(Print(j, st), key, IDBUF) == ""
  {
    hide Valid, Print, FindKey, FirstKey, SearchKey, Follows;
    var tail := Lookup(j, key, st);
  }

  // ---- replies as printed values ----

  function ResultJson(o: Outcome): Json {
    Obj([Member("content", Arr([BlockJson(Encoded(o.text))])), Member("isError", Lit(Flag(o.failed)))])
  }

  function ReplyJson(id: Json, result: Json): Json {
    Obj([Member("jsonrpc", Str("2.0")), Member("id", id), Member("result", result)])
  }

  lemma KeyText(key: string)
    ensures KeyPart(key, COMPACT) == "\"" + (key + "\":")
  {
  }

  /** The envelope of `build_response` is the printed reply object. */
  lemma RespondIsPrinted(id: Json, result: Json)
    requires Valid(id)
    ensures Respond(Print(id, COMPACT), Print(result, COMPACT)) == Print(ReplyJson(id, result), COMPACT)
  {
    var m0, m1, m2 := Member("jsonrpc", Str("2.0")), Member("id", id), Member("result", result);
    PrintHead(id, COMPACT, "");
    hide Print;
    assert Print(id, COMPACT) + "" == Print(id, COMPACT);
    PrintOne(m2, COMPACT);
    PrintMore(m1, [m2]);
    PrintMore(m0, [m1, m2]);
    KeyText("jsonrpc");
    KeyText("id");
    KeyText("result");
    hide KeyPart;
    assert [m0] + [m1, m2] == [m0, m1, m2] && [m1] + [m2] == [m1, m2];
    var i, r := Print(id, COMPACT), Print(result, COMPACT);
    PrintVersion();
    PrintObject([m0, m1, m2]);
    Glue(i, r);
  }

  lemma PrintObject(ms: seq<Member>)
    ensures Print(Obj(ms), COMPACT) == "{" + (PrintMembers(ms, COMPACT) + "}")
  {
  }

  lemma PrintVersion()
    ensures Print(Str("2.0"), COMPACT) == "\"2.0\""
  {
  }

  lemma Glue(i: string, r: string)
    ensures "{" + ((("\"" + ("jsonrpc" + "\":"))
            + ("\"2.0\"" + ("," + (("\"" + ("id" + "\":")) + (i + ("," + (("\"" + ("result" + "\":")) + r))))))) + "}")
         == "{\"jsonrpc\":\"2.0\",\"id\":" + (i + (",\"result\":" + (r + "}")))
  {
    var tail := ",\"result\":" + (r + "}");
    assert ("," + (("\"" + ("result" + "\":")) + r)) + "}" == tail;
    var mid := i + ("," + (("\"" + ("result" + "\":")) + r));
    assert mid + "}" == i + tail;
  }

  function BlockJson(raw: string): Json { Obj([Member("type", Str("text")), Member("text", Str(raw))]) }

  lemma BlockIsPrinted(e: string)
    ensures Print(BlockJson(e), COMPACT) == "{\"type\":\"text\",\"text\":\"" + (e + "\"}")
  {
    var t0, t1 := Member("type", Str("text")), Member("text", Str(e));
    assert Print(Str("text"), COMPACT) == "\"text\"" && Print(Str(e), COMPACT) == "\"" + e + "\"";
    hide Print;
    PrintOne(t1, COMPACT);
    PrintMore(t0, [t1]);
    assert [t0] + [t1] == [t0, t1];
    KeyText("type");
    KeyText("text");
    hide KeyPart;
    PrintObject([t0, t1]);
    GlueBlock(e);
  }

  lemma GlueBlock(e: string)
    ensures "{" + ((("\"" + ("type" + "\":"))
            + ("\"text\"" + ("," + (("\"" + ("text" + "\":")) + ("\"" + e + "\""))))) + "}")
         == "{\"type\":\"text\",\"text\":\"" + (e + "\"}")
  {
  }

  /** The result of `build_tool_result` is the printed content object. */
  lemma ResultIsPrinted(o: Outcome)
    ensures ToolResult(o) == Print(ResultJson(o), COMPACT)
  {
    var e, f := Encoded(o.text), Flag(o.failed);
    var block := BlockJson(e);
    var c0, c1 := Member("content", Arr([block])), Member("isError", Lit(f));
    assert Print(Lit(f), COMPACT) == f;
    PrintOneItem(block);
    hide Print, Encoded, Flag;
    BlockIsPrinted(e);
    PrintOne(c1, COMPACT);
    PrintMore(c0, [c1]);
    assert [c0] + [c1] == [c0, c1];
    KeyText("content");
    KeyText("isError");
    hide KeyPart;
    PrintObject([c0, c1]);
    GlueFlag(f);
    GlueContent(Print(block, COMPACT), e, ("," + (("\"" + ("isError" + "\":")) + f)), f);
  }

  lemma PrintOneItem(j: Json)
    ensures Print(Arr([j]), COMPACT) == "[" + (Print(j, COMPACT) + "]")
  {
    assert PrintItems([j], COMPACT) == Print(j, COMPACT) + "";
  }

  lemma GlueFlag(f: string)
    ensures ("," + (("\"" + ("isError" + "\":")) + f)) + "}" == ",\"isError\":" + (f + "}")
  {
  }

  lemma GlueContent(block: string, e: string, flag: string, f: string)
    requires block == "{\"type\":\"text\",\"text\":\"" + (e + "\"}")
    requires flag + "}" == ",\"isError\":" + (f + "}")
    ensures "{" + ((("\"" + ("content" + "\":")) + (("[" + (block + "]")) + flag)) + "}")
         == "{\"content\":[{\"type\":\"text\",\"text\":\"" + (e + ("\"}],\"isError\":" + (f + "}")))
  {
    var end := flag + "}";
    GlueClose(e, end);
    GlueEnd(f);
    var head, tail := "{\"type\":\"text\",\"text\":\"", e + ("\"}]" + end);
    Assoc(head, e + "\"}", "]" + end);
    assert (e + "\"}") + ("]" + end) == tail;
    GlueHead(block, flag, head + tail);
    GlueLead(head, tail);
  }

  lemma GlueClose(e: string, end: string)
    ensures (e + "\"}") + ("]" + end) == e + ("\"}]" + end)
  {
  }

  lemma GlueEnd(f: string)
    ensures "\"}]" + (",\"isError\":" + (f + "}")) == "\"}],\"isError\":" + (f + "}")
  {
    var l, r := "\"}]", ",\"isError\":";
    Assoc(l, r, f + "}");
    assert l + r == "\"}],\"isError\":";
  }

  lemma GlueHead(block: string, flag: string, rest: string)
    requires block + ("]" + (flag + "}")) == rest
    ensures "{" + ((("\"" + ("content" + "\":")) + (("[" + (block + "]")) + flag)) + "}") == "{\"content\":[" + rest
  {
    var k := "\"" + ("content" + "\":");
    assert (k + (("[" + (block + "]")) + flag)) + "}" == (k + "[") + rest;
    assert "{" + (k + "[") == "{\"content\":[";
    Assoc("{", k + "[", rest);
  }

  lemma GlueLead(head: string, tail: string)
    requires head == "{\"type\":\"text\",\"text\":\""
    ensures "{\"content\":[" + (head + tail) == "{\"content\":[{\"type\":\"text\",\"text\":\"" + tail
  {
    var l := "{\"content\":[";
    Assoc(l, head, tail);
    assert l + head == "{\"content\":[{\"type\":\"text\",\"text\":\"";
  }

  // ---- what a client reads ----

  lemma EncodedIsBody(text: string)
    ensures ValidBody(Encoded(text))
  {
    hide Escape, ValidBody;
    EscapeIsBody(text);
    TooLargeIsBody();
  }

  lemma TooLargeIsBody()
    ensures ValidBody(TOO_LARGE)
  {
    hide ValidBody;
    PlainKeyIsBody(TOO_LARGE);
  }

  lemma MoreMember(m: Member, ms: seq<Member>, key: string)
    requires PlainKey(m.key)
    ensures ValidMembers([m] + ms) <==> Valid(m.value) && ValidMembers(ms)
    ensures FirstKeyMembers([m] + ms, key)
         == if m.key == key then Some(m.value)
            else if FirstKey(m.value, key).Some? then FirstKey(m.value, key) else FirstKeyMembers(ms, key)
  {
    assert ([m] + ms)[1..] == ms;
    PlainKeyIsBody(m.key);
    PlainMatches(m.key, key);
  }

  lemma TwoMembers(a: Member, b: Member, key: string)
    requires PlainKey(a.key) && PlainKey(b.key) && Valid(a.value) && Valid(b.value)
    ensures Valid(Obj([a, b]))
    ensures FirstKey(Obj([a, b]), key)
         == if a.key == key then Some(a.value)
            else if FirstKey(a.value, key).Some? then FirstKey(a.value, key)
            else if b.key == key then Some(b.value) else FirstKey(b.value, key)
  {
    hide PlainKey;
    MoreMember(b, [], key);
    MoreMember(a, [b], key);
    assert [a] + [b] == [a, b] && [b] + [] == [b];
  }

  lemma ThreeMembers(a: Member, b: Member, c: Member, key: string)
    requires PlainKey(a.key) && PlainKey(b.key) && PlainKey(c.key) && Valid(a.value) && Valid(b.value) && Valid(c.value)
    requires a.key != key && FirstKey(a.value, key) == None && FirstKey(b.value, key) == None && c.key != key
    ensures Valid(Obj([a, b, c]))
    ensures FirstKey(Obj([a, b, c]), key) == if b.key == key then Some(b.value) else FirstKey(c.value, key)
  {
    TwoMembers(b, c, key);
    MoreMember(a, [b, c], key);
    assert [a] + [b, c] == [a, b, c];
  }

  lemma OneItem(j: Json, key: string)
    requires Valid(j)
    ensures Valid(Arr([j])) && FirstKey(Arr([j]), key) == FirstKey(j, key)
  {
    assert [j][1..] == [] && ValidItems([]) && FirstKeyItems([], key) == None;
  }

  /** The keys of replies. */
  lemma ReplyKeys()
    ensures PlainKey("type") && PlainKey("text") && PlainKey("content") && PlainKey("isError")
    ensures PlainKey("jsonrpc") && PlainKey("id") && PlainKey("result")
  {
  }

  lemma BlockText(raw: string, key: string)
    requires ValidBody(raw)
    ensures Valid(BlockJson(raw))
    ensures key == "text" ==> FirstKey(BlockJson(raw), key) == Some(Str(raw))
    ensures key == "id" ==> FirstKey(BlockJson(raw), key) == None
  {
    PlainKeyIsBody("text");
    ReplyKeys();
    hide PlainKey, ValidBody;
    TwoMembers(Member("type", Str("text")), Member("text", Str(raw)), key);
    assert "type"[1] != "text"[1];
  }

  lemma ResultText(o: Outcome, key: string)
    ensures Valid(ResultJson(o))
    ensures key == "text" ==> FirstKey(ResultJson(o), key) == Some(Str(Encoded(o.text)))
    ensures key == "id" ==> FirstKey(ResultJson(o), key) == None
  {
    ReplyKeys();
    hide Encoded, ValidBody, BlockJson, PlainKey;
    EncodedIsBody(o.text);
    var block, flag := BlockJson(Encoded(o.text)), Lit(Flag(o.failed));
    BlockText(Encoded(o.text), key);
    OneItem(block, key);
    assert Valid(flag) && FirstKey(flag, key) == None;
    TwoMembers(Member("content", Arr([block])), Member("isError", flag), key);
  }

  lemma ShortKeys()
    ensures SearchKey("id") && SearchKey("text") && SearchKey("method") && SearchKey("params")
    ensures SearchKey("name") && SearchKey("arguments") && SearchKey("path") && SearchKey("cmd")
  {
  }

  lemma ScalarHasNoKey(v: Json, key: string, st: Style)
    requires Scalar(v)
    ensures FirstKey(v, key) == None && Print(v, st) == Print(v, COMPACT)
  {
  }

  /** A reply is a well-formed document; `id` and `text` are found where they belong. */
  lemma ReplyFields(id: Json, o: Outcome, key: string)
    requires Valid(id) && Scalar(id) && (key == "id" || key == "text")
    ensures Valid(ReplyJson(id, ResultJson(o)))
    ensures FirstKey(ReplyJson(id, ResultJson(o)), key) == Some(if key == "id" then id else Str(Encoded(o.text)))
  {
    ReplyKeys();
    PlainKeyIsBody("2.0");
    hide Encoded, ValidBody, ResultJson, PlainKey;
    ResultText(o, key);
    ScalarHasNoKey(id, key, COMPACT);
    VersionHasNoKey(key);
    assert "jsonrpc" != key && "result" != key && "id" != "text";
    hide FirstKey, Valid;
    ThreeMembers(Member("jsonrpc", Str("2.0")), Member("id", id), Member("result", ResultJson(o)), key);
  }

  lemma VersionHasNoKey(key: string)
    requires ValidBody("2.0")
    ensures FirstKey(Str("2.0"), key) == None && Valid(Str("2.0"))
  {
  }

  /**
   What a client reads back out of a tools/call reply: the id, and the tool's output whenever its escaping fits
   (`EscapeFits`) and the client's buffer has room; otherwise the fixed notice.
   */
  lemma ReplyReads(id: Json, o: Outcome, outlen: nat)
    requires Valid(id) && Scalar(id) && TokenFits(id) && '\0' !in o.text
    ensures var t := Respond(Print(id, COMPACT), ToolResult(o));
            && RawToken(t, "id", IDBUF) == Print(id, COMPACT)
            && (EscapeFits(o.text, ESCBUF) && |o.text| <= outlen - 4 ==> GetString(t, "text", outlen) == Some(o.text))
            && (!EscapeFits(o.text, ESCBUF) && outlen >= 40 ==> GetString(t, "text", outlen) == Some(TOO_LARGE))
  {
    ShortKeys();
    hide Valid, Print, FirstKey, RawToken, GetString, Respond, ToolResult, EscapeFits, Escape, TokenFits, SearchKey,
        ReplyJson, ResultJson;
    var j := ReplyJson(id, ResultJson(o));
    ResultIsPrinted(o);
    RespondIsPrinted(id, ResultJson(o));
    ReplyFields(id, o, "id");
    ReplyFields(id, o, "text");
    TokenEchoes(j, "id", COMPACT, id);
    if EscapeFits(o.text, ESCBUF) {
      EscapeDecodes(o.text);
      if |o.text| <= outlen - 4 { LookupFits(j, "text", COMPACT, outlen, Escape(o.text)); }
    } else if outlen >= 40 {
      NoticeDecodes();
      LookupFits(j, "text", COMPACT, outlen, TOO_LARGE);
    }
  }

  lemma NoticeDecodes()
    ensures Unescape(TOO_LARGE) == TOO_LARGE && |TOO_LARGE| <= 36 && '\0' !in TOO_LARGE
  {
    hide Unescape;
    UnescapePlain(TOO_LARGE);
  }

  // ---- requests as the server reads them ----

  lemma ReadsSpan(j: Json, key: string, v: Json, st: Style, size: nat)
    requires Valid(j) && st.Valid() && SearchKey(key) && FirstKey(j, key) == Some(v) && v.Obj? && |Print(v, st)| < size
    ensures SpanWithin(Print(j, st), key, size) == Print(v, st)
  {
    hide Valid, Print, RawSpan, SearchKey;
    LookupSpan(j, key, st);
  }

  /** The call a printed `params` object stands for: the named tool with its decoded arguments. */
  lemma CallOfPrinted(params: Json, args: Json, st: Style, name: string, first: string, second: string)
    requires Valid(params) && Valid(args) && st.Valid() && HasText(params, "name", name, NAMEBUF)
    requires FirstKey(params, "arguments") == Some(args) && args.Obj? && |Print(args, st)| < ARGBUF
    ensures var call := CallOf(Print(params, st));
            && (name == "read_file" && HasText(args, "path", first, PATHBUF) ==> call == ReadFile(first))
            && (name == "write_file" && HasText(args, "path", first, PATHBUF) && HasText(args, "text", second, TEXTBUF)
                ==> call == WriteFile(first, second))
            && (name == "run_command" && HasText(args, "cmd", first, CMDBUF) ==> call == RunCommand(first))
            && (name != "read_file" && name != "write_file" && name != "run_command" ==> call == UnknownTool(name))
  {
    ShortKeys();
    hide Valid, Print, GetString, HasText, SearchKey, FirstKey, SpanWithin;
    ReadsText(params, "name", name, st, NAMEBUF);
    ReadsSpan(params, "arguments", args, st, ARGBUF);
    if HasText(args, "path", first, PATHBUF) { ReadsText(args, "path", first, st, PATHBUF); }
    if HasText(args, "text", second, TEXTBUF) { ReadsText(args, "text", second, st, TEXTBUF); }
    if HasText(args, "cmd", first, CMDBUF) { ReadsText(args, "cmd", first, st, CMDBUF); }
  }

  /**
   A tools/call request, in any printing style and field order that puts no namesake of its fields earlier: the
   tool runs once on the decoded arguments, and out of the reply the client reads its own id and the output.
   */
  lemma ToolsCallAnswered(j: Json, params: Json, id: Json, st: Style, k: nat, tools: Tools, outlen: nat)
    requires Valid(j) && Valid(id) && st.Valid() && HasText(j, "method", "tools/call", NAMEBUF)
    requires FirstKey(j, "params") == Some(params) && params.Obj? && |Print(params, st)| < PARAMBUF
    requires FirstKey(j, "id") == Some(id) && Scalar(id) && TokenFits(id)
    ensures var h, o := Handle(Print(j, st), k, tools), Perform(CallOf(Print(params, st)), k, tools);
            && h.calls == k + 1 && h.reply.Some?
            && RawToken(h.reply.value, "id", IDBUF) == Print(id, st)
            && (EscapeFits(o.text, ESCBUF) && |o.text| <= outlen - 4
                ==> GetString(h.reply.value, "text", outlen) == Some(o.text))
  {
    ShortKeys();
    NotANotification();
    hide Valid, Print, GetString, RawToken, HasText, SearchKey, FirstKey, SpanWithin, Respond, ToolResult,
        EscapeFits, TokenFits;
    hide CallOf, Perform, Notification;
    ReadsText(j, "method", "tools/call", st, NAMEBUF);
    ReadsSpan(j, "params", params, st, PARAMBUF);
    TokenEchoes(j, "id", st, id);
    ScalarHasNoKey(id, "id", st);
    var o := Perform(CallOf(Print(params, st)), k, tools);
    OutcomeIsText(Print(params, st), k, tools);
    NotEmpty(id);
    ReplyReads(id, o, outlen);
  }

  lemma NotEmpty(id: Json)
    requires Valid(id)
    ensures Print(id, COMPACT) != ""
  {
    PrintHead(id, COMPACT, "");
  }

  lemma NamesAreText(params: string)
    ensures match CallOf(params)
            case UnknownTool(n) => '\0' !in n
            case MissingArgument(a) => a == "path" || a == "cmd"
            case _ => true
  {
    hide SpanWithin, GetString;
    FieldIsText(params, "name", NAMEBUF);
  }

  lemma OutcomeIsText(params: string, k: nat, tools: Tools)
    ensures '\0' !in Perform(CallOf(params), k, tools).text
  {
    hide CallOf;
    NamesAreText(params);
    var a, b := "ERROR: missing required argument '", "ERROR: unknown tool '";
    assert '\0' !in a;
    assert '\0' !in b;
    assert '\0' !in "path" && '\0' !in "cmd";
  }

  // ---- when the escaping fits ----

  /** Characters written as two, and control characters written as six. */
  predicate Doubled(c: char) { c == '\"' || c == '\\' || c == '\n' || c == '\r' || c == '\t' }

  predicate RareControl(c: char) { c < ' ' && !Doubled(c) }

  /** What escaping adds to a text. */
  function Added(s: string): nat {
    if s == "" then 0 else (if Doubled(s[0]) then 1 else if RareControl(s[0]) then 5 else 0) + Added(s[1..])
  }

  /** Escaping adds one for every doubled character and five for every rare control, and nothing else. */
  lemma {:induction false} EscapeLength(s: string)
    ensures |Escape(s)| == |s| + Added(s)
  {
    if s != "" { EscapeLength(s[1..]); }
  }

  /** Tool output is encoded exactly when all but its last character leave eight places in the escape buffer. */
  lemma OutputFitsIff(s: string)
    ensures EscapeFits(s, ESCBUF) <==> s == "" || |s| - 1 + Added(s[..|s| - 1]) < ESCBUF - 7
  {
    hide Escape, Added;
    if s != "" { EscapeLength(s[..|s| - 1]); }
  }

  predicate NoRareControls(s: string) { forall i :: 0 <= i < |s| ==> !RareControl(s[i]) }

  lemma {:induction false} PlainAtMostDoubles(s: string)
    requires NoRareControls(s)
    ensures Added(s) <= |s|
  {
    if s != "" {
      assert NoRareControls(s[1..]);
      PlainAtMostDoubles(s[1..]);
    }
  }

  /** So output under the limit without rare control characters always fits. */
  lemma OrdinaryOutputFits(s: string)
    requires NoRareControls(s) && |s| < TOOL_OUT_MAX
    ensures EscapeFits(s, ESCBUF)
  {
    OutputFitsIff(s);
    if s != "" { PlainAtMostDoubles(s[..|s| - 1]); }
  }

  function Bells(n: nat): (s: string)
    ensures |s| == n
  {
    if n == 0 then "" else ['\U{7}'] + Bells(n - 1)
  }

  lemma {:induction false} BellsExpand(n: nat)
    ensures Added(Bells(n)) == 5 * n
  {
    if n > 0 {
      BellsExpand(n - 1);
      assert Bells(n)[1..] == Bells(n - 1);
    }
  }

  lemma {:induction false} BellsPrefix(n: nat)
    ensures Bells(n + 1)[..n] == Bells(n)
  {
    if n > 0 {
      BellsPrefix(n - 1);
      assert Bells(n + 1)[..n] == ['\U{7}'] + Bells(n)[..n - 1];
    }
  }

  /** But the fallback can be reached: 5400 bell characters, well under the output limit, are too much to encode. */
  lemma FallbackIsReachable()
    ensures |Bells(5400)| < TOOL_OUT_MAX && !EscapeFits(Bells(5400), ESCBUF) && Encoded(Bells(5400)) == TOO_LARGE
  {
    hide Bells, Added, EscapeFits;
    OutputFitsIff(Bells(5400));
    BellsPrefix(5399);
    BellsExpand(5399);
  }
}
