/**
 Nostr messages and events: what the client pulls out of a relay's `["EVENT",...]` array, and the NIP-01
 serialization whose hash is an event's id.
 */
module NostrEvent {
  import opened Wrappers
  import opened Bytes
  import opened CText
  import opened JsonText
  import opened JsonScan
  import opened JsonValue
  import opened JsonLookup
  import opened JsonUnique
  import opened Numbers
  import opened HashStream

  const TAGBUF := 24
  const SERBUF := 70000

  // ---- reading a relay message ----

  function AfterBracket(p: string): string {
    if p == "" then "" else if p[0] == '[' then p[1..] else AfterBracket(p[1..])
  }

  /** The text after the opening quote of a leading string. */
  function SeekQuote(p: string): Option<string> {
    if p == "" then None
    else if p[0] == '\"' then Some(p[1..])
    else if p[0] == '{' || p[0] == '[' then None
    else SeekQuote(p[1..])
  }

  function TagText(p: string, room: nat): string {
    if p == "" || p[0] == '\"' || room == 0 then ""
    else if p[0] == '\\' && |p| > 1 then [p[1]] + TagText(p[2..], room - 1)
    else [p[0]] + TagText(p[1..], room - 1)
  }

  /** `first_array_string`. */
  function FirstString(json: string, outlen: nat): Option<string>
    requires outlen >= 1
  {
    match SeekQuote(AfterBracket(json)) case None => None case Some(q) => Some(TagText(q, outlen - 1))
  }

  function SeekBrace(p: string): string {
    if p == "" || p[0] == '{' then p else SeekBrace(p[1..])
  }

  datatype Extracted = Missing | Cut(text: string) | Object(text: string)

  /** `extract_first_object`: no object at all, an unfinished one, or a whole one; the copy is cut to the buffer. */
  function FirstObject(json: string, outlen: nat): Extracted
    requires outlen >= 1
  {
    var q := SeekBrace(json);
    if q == "" then Missing
    else match Balance(q, '{', '}', 0, false)
         case None => Cut(Take(q, outlen - 1))
         case Some(n) => Object(Take(q[..n], outlen - 1))
  }

  lemma {:induction false} SeekBraceOver(lead: string, p: string)
    requires '{' !in lead
    ensures SeekBrace(lead + p) == SeekBrace(p)
  {
    if lead == "" {
      assert lead + p == p;
    } else {
      assert (lead + p)[1..] == lead[1..] + p;
      SeekBraceOver(lead[1..], p);
    }
  }

  lemma {:induction false} TagWhole(raw: string, b: string, room: nat)
    requires '\\' !in raw && '\"' !in raw && |raw| <= room
    ensures TagText(raw + ("\"" + b), room) == raw
  {
    var s := raw + ("\"" + b);
    if raw == "" {
      assert s == "\"" + b;
    } else {
      assert s[1..] == raw[1..] + ("\"" + b);
      TagWhole(raw[1..], b, room - 1);
      assert raw == [raw[0]] + raw[1..];
    }
  }

  /** A relay's event message: the word EVENT, the subscription's name, the event. */
  function EventMessage(sub: string, event: Json): Json { Arr([Str("EVENT"), Str(sub), event]) }

  function Gap(st: Style): string { "," + st.postComma }

  /** A printed message: a lead-in up to the name, the name, and the event. */
  lemma MessageText(sub: string, event: Json, st: Style)
    ensures Print(EventMessage(sub, event), st) == Lead(st) + (sub + ("\"" + (Gap(st) + (Print(event, st) + "]"))))
  {
    var items, gap := [Str("EVENT"), Str(sub), event], Gap(st);
    var third := items[1..][1..];
    assert third == [event] && third[1..] == [];
    hide Print, Quoted, Gap;
    assert PrintItems(third, st) == Print(event, st) + "" == Print(event, st);
    OneMoreItem(items[1..], st);
    OneMoreItem(items, st);
    QuotedText("EVENT", st);
    QuotedText(sub, st);
    ArrayText(items, st);
    GlueMessage(gap, sub, Print(event, st));
  }

  function Lead(st: Style): string { "[\"EVENT\"" + (Gap(st) + "\"") }

  lemma OneMoreItem(items: seq<Json>, st: Style)
    requires |items| > 1
    ensures PrintItems(items, st) == Print(items[0], st) + (Gap(st) + PrintItems(items[1..], st))
  {
  }

  lemma QuotedText(raw: string, st: Style)
    ensures Print(Str(raw), st) == Quoted(raw) == "\"" + (raw + "\"")
  {
  }

  lemma ArrayText(items: seq<Json>, st: Style)
    ensures Print(Arr(items), st) == "[" + PrintItems(items, st) + "]"
  {
  }

  lemma GlueMessage(gap: string, sub: string, event: string)
    ensures "[" + (("\"" + ("EVENT" + "\"")) + (gap + (("\"" + (sub + "\"")) + (gap + event)))) + "]"
         == ("[\"EVENT\"" + (gap + "\"")) + (sub + ("\"" + (gap + (event + "]"))))
  {
    var rest := ("\"" + (sub + "\"")) + (gap + event);
    assert rest + "]" == "\"" + (sub + ("\"" + (gap + (event + "]"))));
    assert ("[" + (("\"" + ("EVENT" + "\"")) + (gap + rest))) + "]" == "[\"EVENT\"" + (gap + (rest + "]"));
  }

  /** The tag is read back. */
  lemma TagIsRead(sub: string, event: Json, st: Style)
    ensures FirstString(Print(EventMessage(sub, event), st), TAGBUF) == Some("EVENT")
  {
    hide Print, TagText, EventMessage, Gap;
    MessageText(sub, event, st);
    var rest := Gap(st) + "\"" + (sub + ("\"" + (Gap(st) + (Print(event, st) + "]"))));
    var s := "EVENT" + ("\"" + rest);
    assert Lead(st) + (sub + ("\"" + (Gap(st) + (Print(event, st) + "]")))) == "[\"" + s;
    assert ("[\"" + s)[1..] == "\"" + s && ("\"" + s)[1..] == s;
    TagWhole("EVENT", rest, TAGBUF - 1);
  }

  /**
   An event message: the object copied out is exactly the event's text, whatever its strings contain, cut only by
   the buffer, when the subscription's name holds no opening brace (this client's name is `sub1`).
   */
  lemma EventIsExtracted(sub: string, event: Json, st: Style, outlen: nat)
    requires Valid(event) && event.Obj? && st.Valid() && outlen >= 1 && '{' !in sub
    ensures FirstObject(Print(EventMessage(sub, event), st), outlen) == Object(Take(Print(event, st), outlen - 1))
  {
    hide Valid, Print, Balance, Take, SeekBrace, EventMessage, Gap;
    var text, gap := Print(event, st), Gap(st);
    MessageText(sub, event, st);
    var lead := Lead(st) + (sub + ("\"" + gap));
    assert Lead(st) + (sub + ("\"" + (gap + (text + "]")))) == lead + (text + "]");
    LeadHasNoBrace(st);
    assert '{' !in lead;
    SeekBraceOver(lead, text + "]");
    EventStarts(event, st);
    BalanceWhole(event, st, "]");
    assert (text + "]")[..|text|] == text;
  }

  lemma LeadHasNoBrace(st: Style)
    requires st.Valid()
    ensures '{' !in Lead(st) && '{' !in Gap(st) && '}' !in Gap(st)
  {
    assert forall i :: 0 <= i < |st.postComma| ==> IsSpace(st.postComma[i]);
    assert '{' !in st.postComma && '}' !in st.postComma;
  }

  lemma EventStarts(event: Json, st: Style)
    requires event.Obj?
    ensures SeekBrace(Print(event, st) + "]") == Print(event, st) + "]" != ""
  {
    assert (Print(event, st) + "]")[0] == '{';
  }

  lemma EventEnds(event: Json, st: Style)
    requires event.Obj? && event.members != []
    ensures |Print(event, st)| >= 2 && Print(event, st)[1] == '\"' && '}' in Print(event, st)
  {
    var inner := PrintMembers(event.members, st);
    assert inner[0] == '\"';
    assert Print(event, st)[|Print(event, st)| - 1] == '}';
  }

  lemma FirstBrace(s: string) returns (i: nat)
    requires '{' in s
    ensures i < |s| && s[i] == '{' && '{' !in s[..i]
  {
    i := 0;
    while s[i] != '{'
      invariant i < |s| && '{' !in s[..i] && '{' in s[i..]
      decreases |s| - i
    {
      assert s[..i + 1] == s[..i] + [s[i]] && s[i..] == [s[i]] + s[i + 1..];
      i := i + 1;
    }
  }

  /** A text that is a prefix of `x` followed by itself is made of the characters of `x`. */
  lemma {:induction false} OwnShadow(x: string, p: string, rest: string, c: char, k: nat)
    requires x != "" && c !in x && k < |p| && p <= x + (p + rest)
    ensures p[k] != c
  {
    var s := x + (p + rest);
    assert p[k] == s[k];
    if k < |x| {
      assert s[k] == x[k];
    } else {
      assert s[k] == p[k - |x|];
      OwnShadow(x, p, rest, c, k - |x|);
    }
  }

  /** With a brace in the name the copy starts inside the name, and is never the event (which has members). */
  lemma BraceInNameMisleads(sub: string, event: Json, st: Style, outlen: nat)
    requires Valid(event) && event.Obj? && event.members != [] && ValidBody(sub) && st.Valid()
    requires '{' in sub && |Print(event, st)| < outlen
    ensures FirstObject(Print(EventMessage(sub, event), st), outlen) != Object(Print(event, st))
  {
    hide Valid, Print, Balance, ValidBody, SeekBrace, EventMessage, Gap;
    var text := Print(event, st);
    var i := FirstBrace(sub);
    var tail := "\"" + (Gap(st) + (text + "]"));
    var q := sub[i..] + tail;
    MessageText(sub, event, st);
    assert sub == sub[..i] + sub[i..];
    assert Lead(st) + (sub + tail) == (Lead(st) + sub[..i]) + q;
    LeadHasNoBrace(st);
    SeekBraceOver(Lead(st) + sub[..i], q);
    BraceStays(q);
    EventEnds(event, st);
    if text <= q {
      assert text[1] == q[1];
      if i + 1 < |sub| {
        assert q[1] == sub[i + 1];
        QuoteIsEscaped(sub, i + 1);
      } else {
        assert sub[i..] == "{";
        Shadowed(Gap(st), text);
      }
      assert false;
    }
  }

  lemma BraceStays(q: string)
    requires q != "" && q[0] == '{'
    ensures SeekBrace(q) == q
  {
  }

  lemma Shadowed(gap: string, text: string)
    requires text <= "{" + ("\"" + (gap + (text + "]"))) && '}' !in gap
    ensures '}' !in text
  {
    var x := "{\"" + gap;
    assert "{" + ("\"" + (gap + (text + "]"))) == x + (text + "]");
    forall k | 0 <= k < |text| ensures text[k] != '}' { OwnShadow(x, text, "]", '}', k); }
  }

  /** So `extract_first_object` gets an event right exactly when the name of the subscription has no brace. */
  lemma ExtractedIffPlainName(sub: string, event: Json, st: Style, outlen: nat)
    requires Valid(event) && event.Obj? && event.members != [] && ValidBody(sub) && st.Valid()
            && |Print(event, st)| < outlen
    ensures FirstObject(Print(EventMessage(sub, event), st), outlen) == Object(Print(event, st)) <==> '{' !in sub
  {
    hide Valid, Print, ValidBody, FirstObject, EventMessage;
    if '{' in sub { BraceInNameMisleads(sub, event, st, outlen); } else { EventIsExtracted(sub, event, st, outlen); }
  }

  /** What `print_event` shows of an event that fits: its decoded content. */
  lemma ContentIsShown(sub: string, event: Json, st: Style, outlen: nat, raw: string)
    requires Valid(event) && event.Obj? && st.Valid() && |Print(event, st)| < outlen && '{' !in sub
    requires FirstKey(event, "content") == Some(Str(raw)) && |Unescape(raw)| <= outlen - 4 && '\0' !in Unescape(raw)
    ensures var got := FirstObject(Print(EventMessage(sub, event), st), outlen);
            got.Object? && GetString(got.text, "content", outlen) == Some(Unescape(raw))
  {
    hide Valid, Print, FirstKey, GetString, Unescape, FirstObject, EventMessage;
    EventIsExtracted(sub, event, st, outlen);
    ContentKey();
    LookupFits(event, "content", st, outlen, raw);
  }

  lemma ContentKey()
    ensures SearchKey("content")
  {
  }

  // ---- the serialization of an event ----

  /** `created` is an unsigned long, `kind` an int, and the tags come as text. */
  datatype Event = Event(pubkey: string, created: nat, kind: int, tags: string, content: string) {
    /** The key is a string body, the numbers fit their C types, and the tags are the text of a JSON array. */
    predicate Valid(tagList: seq<Json>) {
      && ValidBody(pubkey) && created < U32 && -0x8000_0000 <= kind < 0x8000_0000
      && ValidItems(tagList) && tags == Print(Arr(tagList), COMPACT)
    }
  }

  /** `%d`. */
  function PrintInt(n: int): string { if n < 0 then "-" + PrintNat(-n, 10) else PrintNat(n, 10) }

  // The text hashed into the id, from its end to its beginning: a compact JSON array with the content escaped last.
  function AfterTags(e: Event): string { ",\"" + (NostrEscape(e.content) + ("\"" + "]")) }

  function AfterTime(e: Event): string { PrintInt(e.kind) + ("," + (e.tags + AfterTags(e))) }

  function AfterKey(e: Event): string { "," + (PrintNat(e.created, 10) + ("," + AfterTime(e))) }

  function Serialization(e: Event): string { "[0,\"" + (e.pubkey + ("\"" + AfterKey(e))) }

  /** `nostr_escape` refuses when less than three characters are left before some character. */
  predicate NostrFits(src: string, cap: int) {
    src == "" || |NostrEscape(src[..|src| - 1])| < cap - 2
  }

  function Serialize(e: Event, cap: nat): Option<string> {
    if NostrFits(e.content, SERBUF) && |Serialization(e)| < cap then Some(Serialization(e)) else None
  }

  // Reading the fields back, front to back.

  lemma PeelNumber(m: nat, n: nat, x: string, y: string)
    requires m < U32 && n < U32 && PrintNat(m, 10) + ("," + x) == PrintNat(n, 10) + ("," + y)
    ensures m == n && x == y
  {
    hide PrintNat, StrToUl;
    ValueOfPrint(m, 10);
    ValueOfPrint(n, 10);
    StrToUlReads(PrintNat(m, 10), "," + x, 10);
    StrToUlReads(PrintNat(n, 10), "," + y, 10);
    assert ("," + x)[1..] == x && ("," + y)[1..] == y;
  }

  lemma PrintedDigits(n: nat)
    ensures PrintNat(n, 10) != "" && PrintNat(n, 10)[0] != '-'
  {
    ValueOfPrint(n, 10);
    assert IsDigit(PrintNat(n, 10)[0], 10);
  }

  lemma PeelInt(m: int, n: int, x: string, y: string)
    requires -0x8000_0000 <= m < 0x8000_0000 && -0x8000_0000 <= n < 0x8000_0000
    requires PrintInt(m) + ("," + x) == PrintInt(n) + ("," + y)
    ensures m == n && x == y
  {
    IntText(m, "," + x);
    IntText(n, "," + y);
    hide PrintNat, PrintInt;
    if m < 0 {
      Peel("-", "-", PrintNat(-m, 10) + ("," + x), PrintNat(-n, 10) + ("," + y));
      PeelNumber(-m, -n, x, y);
    } else {
      PeelNumber(m, n, x, y);
    }
  }

  lemma IntText(n: int, x: string)
    ensures At(PrintInt(n) + x, 0) == '-' <==> n < 0
    ensures PrintInt(n) + x == if n < 0 then "-" + (PrintNat(-n, 10) + x) else PrintNat(n, 10) + x
  {
    PrintedDigits(if n < 0 then -n else n);
    hide PrintNat;
    if n < 0 {
      Assoc("-", PrintNat(-n, 10), x);
    } else {
      assert At(PrintNat(n, 10) + x, 0) == PrintNat(n, 10)[0];
    }
  }

  lemma {:induction false} NostrEscapeIsBody(s: string)
    ensures ValidBody(NostrEscape(s))
  {
    hide NostrEscapeChar;
    if s != "" {
      NostrCharIsBody(s[0]);
      NostrEscapeIsBody(s[1..]);
      ValidBodyAppend(NostrEscapeChar(s[0]), NostrEscape(s[1..]));
    }
  }

  lemma NostrCharIsBody(c: char)
    ensures ValidBody(NostrEscapeChar(c))
  {
    var e := NostrEscapeChar(c);
    assert e[1..] == "" || e[2..] == "";
  }

  lemma NostrDecodes(s: string)
    ensures Unescape(NostrEscape(s)) == s
  {
    UnescapeNostrEscape(s, "");
    assert NostrEscape(s) + "" == NostrEscape(s) && s + Unescape("") == s;
  }

  /** Different events have different serializations: every field, and every tag, can be read back from the text. */
  lemma SerializationIsInjective(e: Event, f: Event, eTags: seq<Json>, fTags: seq<Json>)
    requires e.Valid(eTags) && f.Valid(fTags) && Serialization(e) == Serialization(f)
    ensures e == f && eTags == fTags
  {
    hide ValidBody, PrintNat, PrintInt, Print, NostrEscape, ValidItems, AfterTags;
    Peel("[0,\"", "[0,\"", e.pubkey + ("\"" + AfterKey(e)), f.pubkey + ("\"" + AfterKey(f)));
    PeelBody(e.pubkey, f.pubkey, AfterKey(e), AfterKey(f));
    Peel(",", ",", PrintNat(e.created, 10) + ("," + AfterTime(e)), PrintNat(f.created, 10) + ("," + AfterTime(f)));
    PeelNumber(e.created, f.created, AfterTime(e), AfterTime(f));
    PeelInt(e.kind, f.kind, e.tags + AfterTags(e), f.tags + AfterTags(f));
    CommaAfterTags(e);
    CommaAfterTags(f);
    ArrIsValid(eTags);
    ArrIsValid(fTags);
    PeelValue(Arr(eTags), Arr(fTags), AfterTags(e), AfterTags(f), COMPACT);
    PeelContent(e, f);
  }

  lemma CommaAfterTags(e: Event)
    ensures Stops(AfterTags(e))
  {
  }

  lemma ArrIsValid(items: seq<Json>)
    requires ValidItems(items)
    ensures Valid(Arr(items)) && COMPACT.Valid()
  {
  }

  lemma PeelContent(e: Event, f: Event)
    requires AfterTags(e) == AfterTags(f)
    ensures e.content == f.content
  {
    hide NostrEscape;
    Peel(",\"", ",\"", NostrEscape(e.content) + ("\"" + "]"), NostrEscape(f.content) + ("\"" + "]"));
    NostrEscapeIsBody(e.content);
    NostrEscapeIsBody(f.content);
    PeelBody(NostrEscape(e.content), NostrEscape(f.content), "]", "]");
    NostrDecodes(e.content);
    NostrDecodes(f.content);
  }

  // ---- the C functions ----

  /** `extract_first_object`. */
  method ExtractFirstObject(json: string, out: array<char>) returns (ok: bool)
    requires out.Length >= 1
    modifies out
    ensures match FirstObject(json, out.Length)
            case Missing => !ok && out[..] == old(out[..])
            case Cut(t) => !ok && |t| < out.Length && out[..|t|] == t && out[|t|] == '\0'
            case Object(t) => ok && |t| < out.Length && out[..|t|] == t && out[|t|] == '\0'
  {
    hide Balance, SeekBrace, Take;
    var q := SkipToBrace(json);
    if q == "" { return false; }
    var end := BalanceRun(q, '{', '}');
    var copy := Take(if end == None then q else q[..end.value], out.Length - 1);
    forall k | 0 <= k < |copy| { out[k] := copy[k]; }
    out[|copy|] := '\0';
    assert out[..|copy|] == copy;
    ok := end.Some?;
  }

  method SkipToBrace(s: string) returns (p: string)
    ensures p == SeekBrace(s)
  {
    p := s;
    while p != "" && p[0] != '{'
      invariant SeekBrace(p) == SeekBrace(s)
      decreases |p|
    {
      p := p[1..];
    }
  }

  /** `first_array_string`. */
  method FirstArrayString(json: string, outlen: nat) returns (tag: Option<string>)
    requires outlen >= 1
    ensures tag == FirstString(json, outlen)
  {
    hide TagText;
    var p := json;
    while p != "" && p[0] != '['
      invariant AfterBracket(p) == AfterBracket(json)
      decreases |p|
    {
      p := p[1..];
    }
    if p != "" { p := p[1..]; }
    ghost var start := p;
    while p != "" && p[0] != '\"'
      invariant SeekQuote(p) == SeekQuote(start)
      decreases |p|
    {
      if p[0] == '{' || p[0] == '[' { return None; }
      p := p[1..];
    }
    if p == "" { return None; }
    var text := CopyTag(p[1..], outlen - 1);
    tag := Some(text);
  }

  method CopyTag(s: string, room: nat) returns (out: string)
    ensures out == TagText(s, room)
  {
    var p := s;
    out := "";
    while p != "" && p[0] != '\"' && |out| < room
      invariant |out| <= room && out + TagText(p, room - |out|) == TagText(s, room)
      decreases |p|
    {
      var n := if p[0] == '\\' && |p| > 1 then 1 else 0;
      Assoc(out, [p[n]], TagText(p[n + 1..], room - |out| - 1));
      out := out + [p[n]];
      p := p[n + 1..];
    }
    assert out + "" == out;
  }

  lemma {:induction false} NostrEscapeGrows(s: string, i: nat)
    requires i <= |s|
    ensures |NostrEscape(s[..i])| <= |NostrEscape(s)|
    decreases |s| - i
  {
    if i == |s| {
      assert s[..i] == s;
    } else {
      assert s[..i + 1] == s[..i] + [s[i]];
      NostrEscapeSnoc(s[..i], s[i]);
      NostrEscapeGrows(s, i + 1);
    }
  }

  /** `nostr_escape`. */
  method EscapeContent(dst: array<char>, src: string) returns (n: int)
    requires dst.Length >= 1
    modifies dst
    ensures n == -1 <==> !NostrFits(src, dst.Length)
    ensures n != -1 ==> n == |NostrEscape(src)| < dst.Length && dst[..n] == NostrEscape(src) && dst[n] == '\0'
  {
    hide NostrEscapeChar, NostrEscape;
    var o, i := 0, 0;
    assert NostrEscape(src[..0]) == "" by { assert src[..0] == ""; NostrEscapeNothing(); }
    while i < |src|
      invariant 0 <= i <= |src|
      invariant 0 <= o == |NostrEscape(src[..i])| < dst.Length && dst[..o] == NostrEscape(src[..i])
      invariant i > 0 ==> |NostrEscape(src[..i - 1])| < dst.Length - 2
    {
      if o >= dst.Length - 2 {
        DropLast(src, i);
        return -1;
      }
      var e := NostrEscapeChar(src[i]);
      assert src[..i + 1] == src[..i] + [src[i]];
      NostrEscapeSnoc(src[..i], src[i]);
      forall k | 0 <= k < |e| { dst[o + k] := e[k]; }
      assert dst[..o + |e|] == NostrEscape(src[..i]) + e;
      o := o + |e|;
      i := i + 1;
    }
    assert src[..i] == src;
    dst[o] := '\0';
    n := o;
  }

  lemma NostrEscapeNothing()
    ensures NostrEscape("") == ""
  {
  }

  lemma DropLast(s: string, i: nat)
    requires i < |s|
    ensures |NostrEscape(s[..i])| <= |NostrEscape(s[..|s| - 1])|
  {
    NostrEscapeGrows(s[..|s| - 1], i);
    assert s[..|s| - 1][..i] == s[..i];
  }

  /** `nostr_serialize`: the text, or nothing when the content or the whole does not fit. */
  method BuildSerialization(e: Event, cap: nat) returns (r: Option<string>)
    ensures r == Serialize(e, cap)
  {
    hide PrintNat, PrintInt, NostrEscape;
    var esc := new char[SERBUF];
    var n := EscapeContent(esc, e.content);
    if n < 0 { return None; }
    var tail := ",\"" + (esc[..n] + ("\"" + "]"));
    var text := "[0,\"" + (e.pubkey + ("\"" + ("," + (PrintNat(e.created, 10) + ("," + (PrintInt(e.kind)
                + ("," + (e.tags + tail))))))));
    r := if |text| >= cap then None else Some(text);
  }

  /** `nostr_event_id`: the hash of the serialization, in hexadecimal. */
  method EventId(e: Event) returns (id: Option<string>)
    ensures id == match Serialize(e, SERBUF)
                  case None => None
                  case Some(text) => Some(Hex(Digest(Sha256, Octets(text))))
  {
    hide Serialize, Digest;
    var text := BuildSerialization(e, SERBUF);
    if text == None { return None; }
    var hex := HashHex(Sha256, Octets(text.value));
    id := Some(hex);
  }
}
