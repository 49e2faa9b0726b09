/**
 Every kind of relay message, as the JSON array it is, and what the subscription shows of a run of them; and the two
 messages the client sends.
 */
module NostrMessages {
  import opened Wrappers
  import opened Bytes
  import opened CText
  import opened JsonText
  import opened JsonScan
  import opened JsonValue
  import opened JsonLookup
  import opened Numbers
  import opened WsReader
  import opened NostrEvent
  import opened NostrClient

  // ---- the word a message begins with ----

  /** A word that needs no escape and fits the buffer. */
  predicate Word(tag: string) { PlainKey(tag) && |tag| < 24 }

  function SaidJson(tag: string, more: seq<Json>): Json { Arr([Str(tag)] + more) }

  lemma SaidText(tag: string, more: seq<Json>, st: Style)
    ensures exists rest :: Print(SaidJson(tag, more), st) == "[\"" + (tag + ("\"" + rest))
  {
    var items := [Str(tag)] + more;
    var rest := if more == [] then "]" else (Gap(st) + PrintItems(items[1..], st)) + "]";
    ArrayText(items, st);
    QuotedText(tag, st);
    if more == [] {
      assert items == [Str(tag)];
      OneItemText(Str(tag), st);
    } else {
      OneMoreItem(items, st);
    }
    hide Print, PrintItems, Quoted, Gap;
    GlueWord(tag, if more == [] then "" else Gap(st) + PrintItems(items[1..], st));
    assert Print(SaidJson(tag, more), st) == "[\"" + (tag + ("\"" + rest));
  }

  lemma OneItemText(j: Json, st: Style)
    ensures PrintItems([j], st) == Print(j, st) + ""
  {
  }

  lemma GlueWord(tag: string, tail: string)
    ensures "[" + (("\"" + (tag + "\"")) + tail) + "]" == "[\"" + (tag + ("\"" + (tail + "]")))
  {
    var q := "\"" + (tail + "]");
    assert (("\"" + (tag + "\"")) + tail) + "]" == "\"" + (tag + q);
    assert "[" + ("\"" + (tag + q)) == "[\"" + (tag + q);
  }

  /** The word is read back, whatever follows it. */
  lemma WordIsRead(tag: string, more: seq<Json>, st: Style)
    requires Word(tag)
    ensures FirstString(Print(SaidJson(tag, more), st), TAGBUF) == Some(tag)
  {
    hide Print, SaidJson;
    SaidText(tag, more, st);
    var rest :| Print(SaidJson(tag, more), st) == "[\"" + (tag + ("\"" + rest));
    var s := tag + ("\"" + rest);
    hide TagText;
    assert ("[\"" + s)[1..] == "\"" + s && ("\"" + s)[1..] == s;
    TagWhole(tag, rest, TAGBUF - 1);
  }

  // ---- one message ----

  /** A published event under some subscription name, or an array that begins with another word. */
  datatype Relayed = Event(note: Note, sub: string) | Said(tag: string, more: seq<Json>) {
    function Json(): Json {
      match this case Event(n, sub) => EventMessage(sub, n.event) case Said(t, more) => SaidJson(t, more)
    }

    predicate Valid(st: Style) {
      && IsText(Print(Json(), st))
      && match this case Event(n, sub) => n.Valid(st) && '{' !in sub case Said(t, _) => Word(t) && t != "EVENT"
    }

    /** The end of the stored events is the end only where the user asked for it. */
    predicate Last(eoseExit: bool) { Said? && (tag == "CLOSED" || (tag == "EOSE" && eoseExit)) }

    function Seen(st: Style): Action {
      match this
      case Event(n, _) => ShowEvent(n.author, n.created, n.kind, n.content)
      case Said(t, _) =>
        if t == "EOSE" then EndOfStored
        else if t == "NOTICE" then RelayNotice(Print(Json(), st))
        else if t == "CLOSED" then SubscriptionClosed(Print(Json(), st))
        else NostrClient.Action.Unknown(Print(Json(), st))
    }
  }

  lemma MessageIsSeen(m: Relayed, st: Style, eoseExit: bool)
    requires st.Valid() && m.Valid(st)
    ensures var a := ActionOf(Delivery(1, Octets(Print(m.Json(), st))));
            a == Some(m.Seen(st)) && (Ends(a, eoseExit) <==> m.Last(eoseExit))
  {
    hide Print, FirstString, EventAction, EventMessage, Octets, Chars, CStr, IsText, SaidJson, Note.Valid;
    match m {
      case Event(n, sub) => NoteIsShown(n, sub, st);
      case Said(t, more) =>
        WordIsRead(t, more, st);
        TextIsRead(Print(m.Json(), st));
    }
  }

  /** Messages that are not text are passed over. */
  lemma OnlyTextCounts(opcode: nat, data: seq<byte>)
    ensures ActionOf(Delivery(opcode, data)) == None <==> opcode != 1
  {
    hide FirstString, EventAction, CStr;
  }

  /** An EVENT that carries no object shows nothing. */
  lemma EventWithoutObject(more: seq<Json>, st: Style)
    requires var text := Print(SaidJson("EVENT", more), st); IsText(text) && '{' !in text
    ensures ActionOf(Delivery(1, Octets(Print(SaidJson("EVENT", more), st)))) == Some(NoObject)
  {
    hide Print, FirstString, Octets, Chars, CStr, SaidJson;
    var text := Print(SaidJson("EVENT", more), st);
    assert '\"' !in "EVENT" && '\\' !in "EVENT";
    WordIsRead("EVENT", more, st);
    TextIsRead(text);
    SeekBraceOver(text, "");
    assert text + "" == text;
  }

  // ---- a run of messages ----

  predicate Relays(ms: seq<Fragmented>, said: seq<Relayed>, st: Style, maxmsg: nat) {
    && |ms| == |said|
    && forall i :: 0 <= i < |ms| ==>
         said[i].Valid(st) && Carries(ms[i], Print(said[i].Json(), st)) && |ms[i].Data()| < maxmsg - 1
  }

  function AllSeen(said: seq<Relayed>, st: Style): seq<Action> {
    if said == [] then [] else [said[0].Seen(st)] + AllSeen(said[1..], st)
  }

  lemma {:induction false} RunIsSeen(ms: seq<Fragmented>, said: seq<Relayed>, rest: seq<Delivery>, st: Style,
      maxmsg: nat, eoseExit: bool)
    requires st.Valid() && Relays(ms, said, st, maxmsg) && forall i :: 0 <= i < |said| ==> !said[i].Last(eoseExit)
    ensures Actions(Deliveries(ms) + rest, eoseExit) == AllSeen(said, st) + Actions(rest, eoseExit)
  {
    hide ActionOf, Carries, Relayed.Json, Relayed.Valid, Relayed.Last, Relayed.Seen, Print, Ends, Fragmented.Data,
        Fragmented.Opcode;
    if ms == [] {
      assert Deliveries(ms) + rest == rest;
      assert AllSeen(said, st) + Actions(rest, eoseExit) == Actions(rest, eoseExit);
    } else {
      var more, text := Deliveries(ms[1..]) + rest, Print(said[0].Json(), st);
      var d := Delivery(ms[0].Opcode(), ms[0].Data());
      Assoc([d], Deliveries(ms[1..]), rest);
      assert ([d] + more)[1..] == more;
      CarriedText(ms[0], text);
      MessageIsSeen(said[0], st, eoseExit);
      RunIsSeen(ms[1..], said[1..], rest, st, maxmsg, eoseExit);
      Assoc([said[0].Seen(st)], AllSeen(said[1..], st), Actions(rest, eoseExit));
    }
  }

  /** As long as no message is the last one, each is shown, in order, and then what the rest of the stream holds. */
  lemma MessagesAreSeen(ms: seq<Fragmented>, said: seq<Relayed>, rest: seq<byte>, st: Style, maxmsg: nat,
      eoseExit: bool)
    requires st.Valid() && Relays(ms, said, st, maxmsg) && forall i :: 0 <= i < |said| ==> !said[i].Last(eoseExit)
    requires forall i :: 0 <= i < |ms| ==> ms[i].Valid()
    ensures Watch(WireAll(ms) + rest, maxmsg, eoseExit).actions
         == AllSeen(said, st) + Actions(Session(rest, maxmsg).messages, eoseExit)
  {
    assert forall i :: 0 <= i < |ms| ==> |ms[i].Data()| < maxmsg - 1;
    hide Watch, Session, Actions, AllSeen, WireAll, Relayed.Last, Carries, Relayed.Valid;
    SessionDelivers(ms, rest, maxmsg);
    WatchIsSession(WireAll(ms) + rest, maxmsg, eoseExit);
    RunIsSeen(ms, said, Session(rest, maxmsg).messages, st, maxmsg, eoseExit);
  }

  /** The last message is shown, and nothing after it, whatever the stream still holds. */
  lemma LastIsLast(ms: seq<Fragmented>, said: seq<Relayed>, m: Fragmented, last: Relayed, rest: seq<byte>, st: Style,
      maxmsg: nat, eoseExit: bool)
    requires st.Valid() && Relays(ms, said, st, maxmsg) && forall i :: 0 <= i < |said| ==> !said[i].Last(eoseExit)
    requires forall i :: 0 <= i < |ms| ==> ms[i].Valid()
    requires Relays([m], [last], st, maxmsg) && m.Valid() && last.Last(eoseExit)
    ensures Watch(WireAll(ms) + (WireAll([m]) + rest), maxmsg, eoseExit).actions == AllSeen(said, st) + [last.Seen(st)]
  {
    hide Watch, Session, WireAll, Relayed.Last, Relayed.Valid, Relayed.Seen, Print, Ends, ActionOf, AllSeen, Carries;
    MessagesAreSeen(ms, said, WireAll([m]) + rest, st, maxmsg, eoseExit);
    var text := Print(last.Json(), st);
    assert last == [last][0] && m == [m][0];
    CarriedText(m, text);
    assert |m.Data()| < maxmsg - 1;
    SessionDelivers([m], rest, maxmsg);
    MessageIsSeen(last, st, eoseExit);
    var d := Delivery(m.Opcode(), m.Data());
    var none: seq<Fragmented> := [];
    assert [m][1..] == none && Deliveries(none) == [] && Deliveries([m]) == [d] + [];
    assert ([d] + Session(rest, maxmsg).messages)[0] == d;
  }

  // ---- what the client sends ----

  /** The request is the printed REQ array for the kinds asked for and the limit. */
  lemma RequestIsPrinted(kinds: seq<Json>, limit: int)
    ensures var filter := Obj([Member("kinds", Arr(kinds)), Member("limit", Lit(PrintInt(limit)))]);
            Request(PrintItems(kinds, COMPACT), limit) == Print(Arr([Str("REQ"), Str("sub1"), filter]), COMPACT)
  {
    var ks, n := PrintItems(kinds, COMPACT), PrintInt(limit);
    var a, b := Member("kinds", Arr(kinds)), Member("limit", Lit(n));
    var filter := Obj([a, b]);
    ArrayText(kinds, COMPACT);
    assert Print(Lit(n), COMPACT) == n;
    RequestItems(filter);
    hide Print, PrintItems, PrintInt;
    TwoFields(a, b);
    assert Field(a) == "\"kinds\":" + ("[" + ks + "]") by { assert Quoted("kinds") + ":" == "\"kinds\":"; }
    assert Field(b) == "\"limit\":" + n by { assert Quoted("limit") + ":" == "\"limit\":"; }
    hide Field;
    GlueRequest(ks, n);
  }

  lemma RequestItems(filter: Json)
    ensures Print(Arr([Str("REQ"), Str("sub1"), filter]), COMPACT)
         == "[\"REQ\",\"sub1\"," + (Print(filter, COMPACT) + "]")
  {
    var items := [Str("REQ"), Str("sub1"), filter];
    assert items[1..] == [Str("sub1"), filter] && items[1..][1..] == [filter];
    hide Print;
    ArrayText(items, COMPACT);
    OneMoreItem(items, COMPACT);
    OneMoreItem(items[1..], COMPACT);
    OneItemText(filter, COMPACT);
    QuotedText("REQ", COMPACT);
    QuotedText("sub1", COMPACT);
    assert Gap(COMPACT) == ",";
    hide PrintItems, Quoted;
    GlueItems(Print(filter, COMPACT));
  }

  lemma GlueItems(f: string)
    ensures "[" + (("\"" + ("REQ" + "\"")) + ("," + (("\"" + ("sub1" + "\"")) + ("," + (f + ""))))) + "]"
         == "[\"REQ\",\"sub1\"," + (f + "]")
  {
    var a, b := "\"" + ("REQ" + "\""), "\"" + ("sub1" + "\"");
    assert f + "" == f;
    assert "[" + (a + ("," + (b + ("," + f)))) + "]" == ("[" + a + "," + b + ",") + (f + "]");
    assert "[" + a + "," + b + "," == "[\"REQ\",\"sub1\",";
  }

  lemma GlueRequest(ks: string, n: string)
    ensures "[\"REQ\",\"sub1\"," + (("{" + ("\"kinds\":" + ("[" + ks + "]")) + "," + ("\"limit\":" + n) + "}") + "]")
         == "[\"REQ\",\"sub1\",{\"kinds\":[" + ks + "],\"limit\":" + n + "}]"
  {
    var h, k, l := "[\"REQ\",\"sub1\",", "\"kinds\":", "\"limit\":";
    var whole := h + (("{" + (k + ("[" + ks + "]")) + "," + (l + n) + "}") + "]");
    assert whole == (h + "{" + k + "[") + ks + ("]" + "," + l) + n + ("}" + "]");
    assert h + "{" + k + "[" == "[\"REQ\",\"sub1\",{\"kinds\":[";
    assert "]" + "," + l == "],\"limit\":";
  }

  lemma FarewellIsPrinted()
    ensures Farewell() == Print(Arr([Str("CLOSE"), Str("sub1")]), COMPACT)
  {
    var items := [Str("CLOSE"), Str("sub1")];
    assert items[1..] == [Str("sub1")];
    hide Print;
    ArrayText(items, COMPACT);
    OneMoreItem(items, COMPACT);
    OneItemText(Str("sub1"), COMPACT);
    QuotedText("CLOSE", COMPACT);
    QuotedText("sub1", COMPACT);
    assert Gap(COMPACT) == ",";
    hide PrintItems, Quoted;
    var a, b := "\"" + ("CLOSE" + "\""), "\"" + ("sub1" + "\"");
    assert "[" + (a + ("," + (b + ""))) + "]" == "[" + a + "," + b + "]" == "[\"CLOSE\",\"sub1\"]";
  }

  // ---- what an event's id is the hash of ----

  /** The array of NIP-01: zero, key, time, kind, tags, content; the content with the seven escapes. */
  function EventArray(e: NostrEvent.Event, tagList: seq<Json>): seq<Json> {
    [Lit("0"), Str(e.pubkey), Lit(PrintNat(e.created, 10)), Lit(PrintInt(e.kind)), Arr(tagList),
     Str(NostrEscape(e.content))]
  }

  /** The text hashed is that array, printed without white space. */
  lemma SerializationIsPrinted(e: NostrEvent.Event, tagList: seq<Json>)
    requires e.Valid(tagList)
    ensures Serialization(e) == Print(Arr(EventArray(e, tagList)), COMPACT)
  {
    var items := EventArray(e, tagList);
    var t, k := PrintNat(e.created, 10), PrintInt(e.kind);
    assert Print(Lit("0"), COMPACT) == "0" && Print(Lit(t), COMPACT) == t && Print(Lit(k), COMPACT) == k;
    assert Gap(COMPACT) == ",";
    QuotedText(e.pubkey, COMPACT);
    QuotedText(NostrEscape(e.content), COMPACT);
    SixItems(items[0], items[1], items[2], items[3], items[4], items[5]);
    hide Print, PrintNat, PrintInt, NostrEscape, Quoted, ValidItems, ValidBody;
    assert items == [items[0], items[1], items[2], items[3], items[4], items[5]];
    GlueArray(e.pubkey, t, k, e.tags, NostrEscape(e.content));
  }

  lemma SixItems(a: Json, b: Json, c: Json, d: Json, e: Json, f: Json)
    ensures Print(Arr([a, b, c, d, e, f]), COMPACT)
         == "[" + (Print(a, COMPACT) + ("," + (Print(b, COMPACT) + ("," + (Print(c, COMPACT) + ("," + (Print(d, COMPACT)
            + ("," + (Print(e, COMPACT) + ("," + Print(f, COMPACT))))))))))) + "]"
  {
    hide Print;
    assert Gap(COMPACT) == ",";
    ArrayText([a, b, c, d, e, f], COMPACT);
    MoreItem(a, [b, c, d, e, f]);
    MoreItem(b, [c, d, e, f]);
    MoreItem(c, [d, e, f]);
    MoreItem(d, [e, f]);
    MoreItem(e, [f]);
    OneItemText(f, COMPACT);
    hide PrintItems;
    assert [a] + [b, c, d, e, f] == [a, b, c, d, e, f] && [b] + [c, d, e, f] == [b, c, d, e, f];
    assert [c] + [d, e, f] == [c, d, e, f] && [d] + [e, f] == [d, e, f] && [e] + [f] == [e, f];
    assert Print(f, COMPACT) + "" == Print(f, COMPACT);
  }

  lemma MoreItem(j: Json, rest: seq<Json>)
    requires rest != []
    ensures PrintItems([j] + rest, COMPACT) == Print(j, COMPACT) + ("," + PrintItems(rest, COMPACT))
  {
    assert ([j] + rest)[1..] == rest && Gap(COMPACT) == ",";
    hide Print;
    OneMoreItem([j] + rest, COMPACT);
  }

  lemma GlueArray(key: string, time: string, kind: string, tags: string, content: string)
    ensures "[" + ("0" + ("," + (("\"" + (key + "\"")) + ("," + (time + ("," + (kind + ("," + (tags
            + ("," + ("\"" + (content + "\"")))))))))))) + "]"
         == "[0,\"" + (key + ("\"" + ("," + (time + ("," + (kind + ("," + (tags
            + (",\"" + (content + ("\"" + "]")))))))))))
  {
    var last := "\"" + (content + "\"");
    var end := ",\"" + (content + ("\"" + "]"));
    assert ("," + last) + "]" == end;
    var a := "," + (tags + ("," + last));
    assert a + "]" == "," + (tags + end);
    var b := "," + (kind + a);
    assert b + "]" == "," + (kind + (a + "]"));
    var c := "," + (time + b);
    assert c + "]" == "," + (time + (b + "]"));
    GlueFront(key, c);
  }

  lemma GlueFront(key: string, c: string)
    ensures "[" + ("0" + ("," + (("\"" + (key + "\"")) + c))) + "]" == "[0,\"" + (key + ("\"" + (c + "]")))
  {
    var d := "\"" + (c + "]");
    assert (("\"" + (key + "\"")) + c) + "]" == "\"" + (key + d);
    assert "[" + ("0" + ("," + ("\"" + (key + d)))) == "[0,\"" + (key + d);
    assert "[" + ("0" + ("," + (("\"" + (key + "\"")) + c))) + "]"
        == "[" + ("0" + ("," + ((("\"" + (key + "\"")) + c) + "]")));
  }
}
