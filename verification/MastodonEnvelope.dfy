/**
 The request bodies of the Mastodon client: a status body, and the proxy envelope that carries it escaped a
 second time.  Both are printed JSON objects, so the lookup lemmas give back every field.
 */
module MastodonEnvelope {
  import opened Wrappers
  import opened Bytes
  import opened CText
  import opened JsonText
  import opened JsonScan
  import opened JsonValue
  import opened JsonLookup

  // Sizes of the escape buffers.
  const ESC_HOST_MAX := 520
  const ESC_PATH_MAX := 608
  const ESC_TOKEN_MAX := 520
  const STATUS_ESC_MAX := 3064
  const ESC_BODY_MAX := 6264

  /** A `"key":"value"` piece of a format string. */
  function Pair(key: string, raw: string): string { "\"" + key + "\":\"" + raw + "\"" }

  /** `{"status":"<escaped text>"}`. */
  function StatusText(text: string): string { "{" + Pair("status", Escape(text)) + "}" }

  /** The format of `build_proxy_envelope`; an absent or empty body leaves its field out. */
  function EnvelopeText(verb: string, host: string, path: string, token: string, body: string): string {
    "{" + (Pair("method", verb) + ("," + (Pair("host", Escape(host)) + ("," + (Pair("path", Escape(path))
    + ("," + (Pair("token", Escape(token))
    + (if body == "" then "" else "," + Pair("body", Escape(body)))))))))) + "}"
  }

  function BuildStatusBody(text: string, dstlen: nat): Option<string> {
    if EscapeFits(text, STATUS_ESC_MAX) && |StatusText(text)| < dstlen then Some(StatusText(text)) else None
  }

  function BuildEnvelope(verb: string, host: string, path: string, token: string, body: string,
      dstlen: nat): Option<string> {
    if EscapeFits(host, ESC_HOST_MAX) && EscapeFits(path, ESC_PATH_MAX) && EscapeFits(token, ESC_TOKEN_MAX)
       && (body == "" || EscapeFits(body, ESC_BODY_MAX))
       && |EnvelopeText(verb, host, path, token, body)| < dstlen
    then Some(EnvelopeText(verb, host, path, token, body))
    else None
  }

  // ---- the texts as printed values ----

  datatype Field = Field(key: string, raw: string)

  /** Members with string values only. */
  function Flat(fields: seq<Field>): seq<Member> {
    if fields == [] then [] else [Member(fields[0].key, Str(fields[0].raw))] + Flat(fields[1..])
  }

  function Pairs(fields: seq<Field>): seq<string> {
    if fields == [] then [] else [Pair(fields[0].key, fields[0].raw)] + Pairs(fields[1..])
  }

  function Joined(fields: seq<Field>): string { Join(Pairs(fields), ",") }

  lemma JoinedStep(fields: seq<Field>)
    ensures Joined(fields)
         == if fields == [] then ""
            else Pair(fields[0].key, fields[0].raw) + (if |fields| == 1 then "" else "," + Joined(fields[1..]))
  {
    hide Pair;
    if fields != [] {
      var p, rest := Pair(fields[0].key, fields[0].raw), Pairs(fields[1..]);
      assert Pairs(fields)[1..] == rest;
      if |fields| == 1 {
        assert p + "" == p;
      } else {
        assert rest != [];
        Assoc(p, ",", Join(rest, ","));
      }
    }
  }

  lemma PairIsMember(f: Field)
    ensures KeyPart(f.key, COMPACT) + Print(Str(f.raw), COMPACT) == Pair(f.key, f.raw)
  {
  }

  lemma {:induction false} JoinedIsPrinted(fields: seq<Field>)
    ensures PrintMembers(Flat(fields), COMPACT) == Joined(fields) && |Flat(fields)| == |fields|
  {
    hide KeyPart, Print, Joined, PrintMembers, Pair;
    JoinedStep(fields);
    if fields == [] {
      NothingPrinted();
    } else {
      var m, rest := Member(fields[0].key, Str(fields[0].raw)), Flat(fields[1..]);
      JoinedIsPrinted(fields[1..]);
      PairIsMember(fields[0]);
      if |fields| == 1 {
        assert Flat(fields) == [m];
        PrintOne(m, COMPACT);
        assert Pair(m.key, fields[0].raw) + "" == Pair(m.key, fields[0].raw);
      } else {
        PrintMore(m, rest);
        Assoc(KeyPart(m.key, COMPACT), Print(m.value, COMPACT), "," + PrintMembers(rest, COMPACT));
      }
    }
  }

  lemma NothingPrinted()
    ensures PrintMembers([], COMPACT) == ""
  {
  }

  predicate AllValid(fields: seq<Field>) {
    forall i :: 0 <= i < |fields| ==> PlainKey(fields[i].key) && ValidBody(fields[i].raw)
  }

  lemma {:induction false} FlatIsValid(fields: seq<Field>)
    requires AllValid(fields)
    ensures ValidMembers(Flat(fields)) && |Flat(fields)| == |fields|
    ensures forall i :: 0 <= i < |fields| ==> Flat(fields)[i] == Member(fields[i].key, Str(fields[i].raw))
  {
    if fields != [] {
      PlainKeyIsBody(fields[0].key);
      FlatIsValid(fields[1..]);
      assert Flat(fields)[1..] == Flat(fields[1..]);
    }
  }

  lemma FieldOfFlat(fields: seq<Field>, i: nat)
    requires AllValid(fields) && i < |fields|
    requires forall k :: 0 <= k < i ==> fields[k].key != fields[i].key
    ensures Valid(Obj(Flat(fields))) && FirstKey(Obj(Flat(fields)), fields[i].key) == Some(Str(fields[i].raw))
  {
    var ms := Flat(fields);
    FlatIsValid(fields);
    forall k | 0 <= k < i ensures ms[k] == Member(fields[k].key, Str(fields[k].raw))
        && FirstKey(ms[k].value, fields[i].key) == None {
    }
    PlainFieldIsFirst(ms, fields[i].key, i);
  }

  lemma PrintedFlat(fields: seq<Field>)
    ensures Print(Obj(Flat(fields)), COMPACT) == "{" + Joined(fields) + "}"
  {
    JoinedIsPrinted(fields);
  }

  /** A string field of a flat object is read back decoded, into any buffer with room for it. */
  lemma ReadField(fields: seq<Field>, i: nat, outlen: nat)
    requires AllValid(fields) && i < |fields| && SearchKey(fields[i].key)
    requires forall k :: 0 <= k < i ==> fields[k].key != fields[i].key
    requires |Unescape(fields[i].raw)| <= outlen - 4 && '\0' !in Unescape(fields[i].raw)
    ensures GetString("{" + Joined(fields) + "}", fields[i].key, outlen) == Some(Unescape(fields[i].raw))
  {
    hide Valid, Print, FirstKey, GetString, SearchKey, Unescape, Joined, Flat, AllValid;
    FieldOfFlat(fields, i);
    PrintedFlat(fields);
    LookupFits(Obj(Flat(fields)), fields[i].key, COMPACT, outlen, fields[i].raw);
  }

  function EnvelopeFields(verb: string, host: string, path: string, token: string, body: string): seq<Field> {
    [Field("method", verb), Field("host", Escape(host)), Field("path", Escape(path)), Field("token", Escape(token))]
    + (if body == "" then [] else [Field("body", Escape(body))])
  }

  lemma EnvelopeIsFlat(verb: string, host: string, path: string, token: string, body: string)
    ensures EnvelopeText(verb, host, path, token, body)
            == "{" + Joined(EnvelopeFields(verb, host, path, token, body)) + "}"
  {
    hide Pair, Escape, Joined;
    var f := EnvelopeFields(verb, host, path, token, body);
    assert f[1..][1..][1..] == f[3..];
    JoinedStep(f);
    JoinedStep(f[1..]);
    JoinedStep(f[1..][1..]);
    JoinedStep(f[3..]);
    JoinedStep(f[3..][1..]);
    if body == "" {
      assert f[3..] == [f[3]] && Joined(f[3..]) == Pair("token", Escape(token)) + "";
    } else {
      assert f[3..][1..] == [f[4]]
          && Joined(f[3..][1..]) == Pair("body", Escape(body)) + "" == Pair("body", Escape(body));
    }
    assert Joined(f[1..][1..]) == Pair("path", Escape(path)) + ("," + Joined(f[3..]));
    assert Joined(f[1..]) == Pair("host", Escape(host)) + ("," + Joined(f[1..][1..]));
  }

  lemma EscapeReadsBack(s: string)
    ensures ValidBody(Escape(s)) && Unescape(Escape(s)) == s
  {
    EscapeIsBody(s);
    EscapeDecodes(s);
  }

  /** Every field of the envelope is read back as it went in. */
  lemma EnvelopeRoundTrip(verb: string, host: string, path: string, token: string, body: string, outlen: nat)
    requires ValidBody(verb) && '\0' !in host + path + token + body
    ensures var e := EnvelopeText(verb, host, path, token, body);
            && (|host| <= outlen - 4 ==> GetString(e, "host", outlen) == Some(host))
            && (|path| <= outlen - 4 ==> GetString(e, "path", outlen) == Some(path))
            && (|token| <= outlen - 4 ==> GetString(e, "token", outlen) == Some(token))
            && (|body| <= outlen - 4 && body != "" ==> GetString(e, "body", outlen) == Some(body))
  {
    hide Escape, Unescape, ValidBody, GetString, Joined, SearchKey, AllValid, EnvelopeFields;
    EnvelopeIsFlat(verb, host, path, token, body);
    EnvelopeFieldsAre(verb, host, path, token, body);
    EnvelopeKeys();
    NulFreeParts(host, path, token, body);
    var f := EnvelopeFields(verb, host, path, token, body);
    if |host| <= outlen - 4 { ReadField(f, 1, outlen); }
    if |path| <= outlen - 4 { ReadField(f, 2, outlen); }
    if |token| <= outlen - 4 { ReadField(f, 3, outlen); }
    if |body| <= outlen - 4 && body != "" { ReadField(f, 4, outlen); }
  }

  lemma EnvelopeFieldsAre(verb: string, host: string, path: string, token: string, body: string)
    requires ValidBody(verb)
    ensures var f := EnvelopeFields(verb, host, path, token, body);
            && |f| == (if body == "" then 4 else 5) && AllValid(f)
            && f[0].key == "method" && f[1].key == "host" && f[2].key == "path" && f[3].key == "token"
            && (body != "" ==> f[4].key == "body" && Unescape(f[4].raw) == body)
            && Unescape(f[1].raw) == host && Unescape(f[2].raw) == path && Unescape(f[3].raw) == token
  {
    hide Escape, Unescape, ValidBody, PlainKey, SearchKey, AllValid;
    var four := [Field("method", verb), Field("host", Escape(host)), Field("path", Escape(path)),
        Field("token", Escape(token))];
    EscapeReadsBack(host);
    EscapeReadsBack(path);
    EscapeReadsBack(token);
    EnvelopeKeys();
    assert AllValid(four) by { FourValid(four); }
    if body == "" {
      assert four + [] == four;
    } else {
      EscapeReadsBack(body);
      OneMoreValid(four, Field("body", Escape(body)));
    }
  }

  lemma FourValid(f: seq<Field>)
    requires |f| == 4 && PlainKey(f[0].key) && PlainKey(f[1].key) && PlainKey(f[2].key) && PlainKey(f[3].key)
    requires ValidBody(f[0].raw) && ValidBody(f[1].raw) && ValidBody(f[2].raw) && ValidBody(f[3].raw)
    ensures AllValid(f)
  {
    hide PlainKey, ValidBody;
  }

  lemma OneMoreValid(f: seq<Field>, g: Field)
    requires AllValid(f) && PlainKey(g.key) && ValidBody(g.raw)
    ensures AllValid(f + [g])
  {
    hide PlainKey, ValidBody;
  }

  lemma EnvelopeKeys()
    ensures PlainKey("method") && PlainKey("host") && PlainKey("path") && PlainKey("token") && PlainKey("body")
    ensures SearchKey("host") && SearchKey("path") && SearchKey("token") && SearchKey("body")
    ensures "method" != "host" && "method" != "path" && "method" != "token" && "method" != "body" && "host" != "path"
    ensures "host" != "token" && "host" != "body" && "path" != "token" && "path" != "body" && "token" != "body"
  {
    assert "host"[0] != "path"[0] && "host"[0] != "body"[0] && "path"[0] != "body"[0];
  }

  lemma NulFreeParts(a: string, b: string, c: string, d: string)
    requires '\0' !in a + b + c + d
    ensures '\0' !in a && '\0' !in b && '\0' !in c && '\0' !in d
  {
    var all := a + b + c + d;
    assert forall x :: x in a || x in b || x in c || x in d ==> x in all;
  }

  lemma StatusReadsBack(text: string, outlen: nat)
    requires '\0' !in text && |text| <= outlen - 4
    ensures GetString(StatusText(text), "status", outlen) == Some(text)
  {
    hide Escape, Unescape, ValidBody, GetString;
    EscapeReadsBack(text);
    var f := [Field("status", Escape(text))];
    hide Joined;
    JoinedStep(f);
    assert Joined(f) == Pair("status", Escape(text)) + "" == Pair("status", Escape(text));
    ReadField(f, 0, outlen);
  }

  lemma {:induction false} EscapeIsNulFree(s: string)
    ensures '\0' !in Escape(s)
  {
    EscapeHasNoControls(s);
  }

  /** The text survives both escapings: out of the envelope the body, out of the body the status. */
  lemma DoubleEscape(verb: string, host: string, path: string, token: string, text: string, bodybuf: nat, textbuf: nat)
    requires ValidBody(verb) && '\0' !in host + path + token && '\0' !in text
    requires |StatusText(text)| <= bodybuf - 4 && |text| <= textbuf - 4
    ensures var e := EnvelopeText(verb, host, path, token, StatusText(text));
            && GetString(e, "body", bodybuf) == Some(StatusText(text))
            && GetString(GetString(e, "body", bodybuf).value, "status", textbuf) == Some(text)
  {
    hide GetString, ValidBody, EnvelopeText;
    var body := StatusText(text);
    EscapeIsNulFree(text);
    assert '\0' !in body;
    assert '\0' !in host + path + token + body;
    EnvelopeRoundTrip(verb, host, path, token, body, bodybuf);
    StatusReadsBack(text, textbuf);
  }

  // ---- the C functions ----

  /** `build_status_post_body`: the length, or -1. */
  method BuildStatusPostBody(dst: array<char>, text: string) returns (n: int)
    modifies dst
    ensures match BuildStatusBody(text, dst.Length)
            case None => n == -1
            case Some(t) => n == |t| && dst[..n] == t
  {
    hide StatusText;
    var esc := new char[STATUS_ESC_MAX];
    var el := JsonEscape(esc, text);
    if el < 0 { return -1; }
    n := Sprintf(dst, "{" + Pair("status", esc[..el]) + "}");
    assert esc[..el] == Escape(text);
    StatusTextIs(text);
  }

  lemma StatusTextIs(text: string)
    ensures StatusText(text) == "{" + Pair("status", Escape(text)) + "}"
  {
  }

  /** `sprintf` followed by the length test; a text that does not fit is reported, not kept. */
  method Sprintf(dst: array<char>, s: string) returns (n: int)
    modifies dst
    ensures n == if |s| < dst.Length then |s| else -1
    ensures n != -1 ==> dst[..n] == s && dst[n] == '\0'
  {
    if |s| >= dst.Length { return -1; }
    forall k | 0 <= k < |s| { dst[k] := s[k]; }
    dst[|s|] := '\0';
    assert dst[..|s|] == s;
    n := |s|;
  }

  /** `build_proxy_envelope`: the length, or -1. */
  method BuildProxyEnvelope(dst: array<char>, verb: string, host: string, path: string, token: string, body: string)
      returns (n: int)
    modifies dst
    ensures match BuildEnvelope(verb, host, path, token, body, dst.Length)
            case None => n == -1
            case Some(t) => n == |t| && dst[..n] == t
  {
    hide Pair, Escape;
    var h := EscapeInto(host, ESC_HOST_MAX);
    if h == None { return -1; }
    var p := EscapeInto(path, ESC_PATH_MAX);
    if p == None { return -1; }
    var t := EscapeInto(token, ESC_TOKEN_MAX);
    if t == None { return -1; }
    var tail := "";
    if body != "" {
      var b := EscapeInto(body, ESC_BODY_MAX);
      if b == None { return -1; }
      tail := "," + Pair("body", b.value);
    }
    n := Sprintf(dst, "{" + (Pair("method", verb) + ("," + (Pair("host", h.value) + ("," + (Pair("path", p.value)
                      + ("," + (Pair("token", t.value)
                      + tail))))))) + "}");
  }

  method EscapeInto(s: string, size: nat) returns (r: Option<string>)
    requires size >= 1
    ensures r == if EscapeFits(s, size) then Some(Escape(s)) else None
  {
    var buf := new char[size];
    var n := JsonEscape(buf, s);
    r := if n < 0 then None else Some(buf[..n]);
  }
}
