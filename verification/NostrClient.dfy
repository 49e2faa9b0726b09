/**
 The subscription of the Nostr client from the handshake on: what it shows of a relay's messages, and when it stops.

 `Watch` follows the loop on the relay's stream.  `EventsAreShown` ties it to the events themselves, through
 masking, fragments, pings, JSON and escapes.
 */
module NostrClient {
  import opened Wrappers
  import opened Bytes
  import opened CText
  import opened JsonScan
  import opened JsonValue
  import opened JsonLookup
  import opened Numbers
  import opened WsReader
  import opened NostrEvent
  import Handshake

  const MSGBUF := 131072
  const OBJBUF := 66000
  const PUBKEYBUF := 80
  const CREATEDBUF := 32
  const KINDBUF := 16

  datatype Action =
    | ShowEvent(author: string, created: string, kind: string, content: string)
    | NoObject                     // an EVENT without a whole object
    | EndOfStored
    | RelayNotice(text: string)
    | SubscriptionClosed(text: string)
    | Unknown(text: string)        // any other message; shown in verbose mode only

  // ---- one message ----

  /** The digits a text begins with, as far as the buffer reaches. */
  function DigitRun(s: string, room: nat): (r: string)
    ensures |r| <= room
  {
    if room == 0 || s == "" || !('0' <= s[0] <= '9') then "" else [s[0]] + DigitRun(s[1..], room - 1)
  }

  /** A number scanned raw: the digits after the blanks after its key. */
  function NumberField(obj: string, key: string, size: nat): string
    requires size >= 1
  {
    match FindKey(obj, key) case None => "" case Some(q) => DigitRun(SkipBlank(q), size - 1)
  }

  /** The time of an event: a string, or else a number. */
  function CreatedField(obj: string): string {
    var s := GetStringOrEmpty(obj, "created_at", CREATEDBUF);
    if s == "" then NumberField(obj, "created_at", CREATEDBUF) else s
  }

  /** `print_event`. */
  function EventAction(text: string): Action {
    match FirstObject(text, OBJBUF)
    case Object(obj) =>
      ShowEvent(GetStringOrEmpty(obj, "pubkey", PUBKEYBUF), CreatedField(obj), NumberField(obj, "kind", KINDBUF),
                GetStringOrEmpty(obj, "content", OBJBUF))
    case _ => NoObject
  }

  /** What the loop does with a message, as the C string its buffer holds; only text messages count. */
  function ActionOf(m: Delivery): Option<Action> {
    var text := CStr(Chars(m.data));
    if m.opcode != TEXT then None
    else
      match FirstString(text, TAGBUF)
      case None => Some(Unknown(text))
      case Some(tag) =>
        Some(if tag == "EVENT" then EventAction(text)
             else if tag == "EOSE" then EndOfStored
             else if tag == "NOTICE" then RelayNotice(text)
             else if tag == "CLOSED" then SubscriptionClosed(text)
             else Unknown(text))
  }

  predicate Ends(a: Option<Action>, eoseExit: bool) {
    a.Some? && (a.value.SubscriptionClosed? || (a.value.EndOfStored? && eoseExit))
  }

  function Listed(a: Option<Action>): seq<Action> { match a case None => [] case Some(x) => [x] }

  // ---- all messages ----

  datatype Watched = Watched(actions: seq<Action>, pongs: seq<seq<byte>>)

  /** The loop of `run_subscribe` on the stream after the handshake. */
  function Watch(s: seq<byte>, maxmsg: nat, eoseExit: bool): Watched
    decreases |s|
  {
    match Assemble(s, maxmsg, START)
    case Closed(_, pongs) => Watched([], pongs)
    case Failed(_, pongs) => Watched([], pongs)
    case Message(op, data, rest, pongs) =>
      var a := ActionOf(Delivery(op, data));
      if Ends(a, eoseExit) then Watched(Listed(a), pongs)
      else
        var w := Watch(rest, maxmsg, eoseExit);
        Watched(Listed(a) + w.actions, pongs + w.pongs)
  }

  /** What is shown of a list of messages: up to the first that ends the subscription. */
  function Actions(ms: seq<Delivery>, eoseExit: bool): seq<Action> {
    if ms == [] then []
    else if Ends(ActionOf(ms[0]), eoseExit) then Listed(ActionOf(ms[0]))
    else Listed(ActionOf(ms[0])) + Actions(ms[1..], eoseExit)
  }

  lemma WatchStep(s: seq<byte>, maxmsg: nat, eoseExit: bool)
    ensures var o := Assemble(s, maxmsg, START);
            if !o.Message? then Watch(s, maxmsg, eoseExit) == Watched([], o.pongs)
            else
              var a := ActionOf(Delivery(o.opcode, o.data));
              var w := Watch(o.rest, maxmsg, eoseExit);
              Watch(s, maxmsg, eoseExit)
              == if Ends(a, eoseExit) then Watched(Listed(a), o.pongs)
                  else Watched(Listed(a) + w.actions, o.pongs + w.pongs)
  {
    hide Assemble, ActionOf;
  }

  /**
   The loop shows what the whole transcript holds, up to the first message that ends it, and answers no more pings
   than it holds.
   */
  lemma {:induction false} WatchIsSession(s: seq<byte>, maxmsg: nat, eoseExit: bool)
    ensures var w, t := Watch(s, maxmsg, eoseExit), Session(s, maxmsg);
            w.actions == Actions(t.messages, eoseExit) && w.pongs <= t.pongs
    decreases |s|
  {
    hide Assemble, ActionOf, Ends, Listed, Watch, Session;
    WatchStep(s, maxmsg, eoseExit);
    var o := Assemble(s, maxmsg, START);
    if o.Message? {
      SessionStep(s, maxmsg);
      WatchIsSession(o.rest, maxmsg, eoseExit);
      var t := Session(o.rest, maxmsg);
      var ms := [Delivery(o.opcode, o.data)] + t.messages;
      assert ms[1..] == t.messages;
    } else {
      SessionEnd(s, maxmsg);
    }
  }

  // ---- events in, contents out ----

  predicate IsText(s: string) { forall i :: 0 <= i < |s| ==> 0 < s[i] as int < 256 }

  /** A message on the wire, in any fragmentation, that holds this text. */
  predicate Carries(m: Fragmented, text: string) {
    m.Valid() && m.Opcode() == TEXT && m.Data() == Octets(text) && IsText(text)
  }

  lemma TextIsRead(text: string)
    requires IsText(text)
    ensures CStr(Chars(Octets(text))) == text
  {
    assert Chars(Octets(text)) == text;
    assert '\0' !in text;
    CStrOfNulFree(text);
  }

  /** A published event: key and content are strings, time and kind numbers, all inside the client's buffers. */
  datatype Note = Note(event: Json, author: string, created: string, kind: string, content: string) {
    predicate Valid(st: Style) {
      && JsonValue.Valid(event) && event.Obj? && |Print(event, st)| < OBJBUF
      && HasText(event, "pubkey", author, PUBKEYBUF) && HasText(event, "content", content, OBJBUF)
      && HasNumber(event, "created_at", created, CREATEDBUF) && HasNumber(event, "kind", kind, KINDBUF)
      && OnlyBlanks(st.postColon)
    }
  }

  predicate HasNumber(j: Json, key: string, digits: string, size: nat) {
    FirstKey(j, key) == Some(Lit(digits)) && |digits| < size && AllDigits(digits, 10)
  }

  lemma {:induction false} DigitsRun(digits: string, tail: string, room: nat)
    requires AllDigits(digits, 10) && |digits| <= room && (tail == "" || !('0' <= tail[0] <= '9'))
    ensures DigitRun(digits + tail, room) == digits
  {
    if digits == "" {
      assert digits + tail == tail;
    } else {
      assert IsDigit(digits[0], 10);
      assert (digits + tail)[1..] == digits[1..] + tail;
      DigitsRun(digits[1..], tail, room - 1);
      assert digits == [digits[0]] + digits[1..];
    }
  }

  /** A number field is read back when only blanks follow the colon. */
  lemma ReadsNumber(j: Json, key: string, digits: string, st: Style, size: nat)
    requires JsonValue.Valid(j) && st.Valid() && SearchKey(key) && OnlyBlanks(st.postColon)
    requires HasNumber(j, key, digits, size)
    ensures NumberField(Print(j, st), key, size) == digits && GetStringOrEmpty(Print(j, st), key, size) == ""
  {
    hide JsonValue.Valid, Print, FindKey, FirstKey, SearchKey, Follows, GetString, NumberField, OnlyBlanks;
    NumberIsLit(j, key, digits, st, size);
    var tail := Lookup(j, key, st);
    LookupString(j, key, st, size);
    NumberAt(Print(j, st), key, st.postColon, digits, tail, size);
  }

  lemma NumberIsLit(j: Json, key: string, digits: string, st: Style, size: nat)
    requires JsonValue.Valid(j) && HasNumber(j, key, digits, size)
    ensures FirstKey(j, key) == Some(Lit(digits)) && Print(Lit(digits), st) == digits
    ensures digits != "" && |digits| < size && AllDigits(digits, 10)
  {
    hide FirstKey;
    FirstKeyValid(j, key);
  }

  lemma NumberAt(obj: string, key: string, blanks: string, digits: string, tail: string, size: nat)
    requires FindKey(obj, key) == Some(blanks + (digits + tail)) && OnlyBlanks(blanks) && Follows(tail)
    requires digits != "" && |digits| < size && AllDigits(digits, 10)
    ensures NumberField(obj, key, size) == digits
  {
    hide FindKey, DigitRun, SkipBlank, Follows, AllDigits, OnlyBlanks;
    FollowsNoDigit(tail);
    NoBlankAhead(digits, tail);
    SkipBlankOver(blanks, digits + tail);
    DigitsRun(digits, tail, size - 1);
  }

  lemma FollowsNoDigit(b: string)
    requires Follows(b)
    ensures b == "" || !('0' <= b[0] <= '9')
  {
  }

  lemma NoBlankAhead(digits: string, tail: string)
    requires AllDigits(digits, 10) && digits != ""
    ensures digits + tail != "" && (digits + tail)[0] != ' ' && (digits + tail)[0] != '\t'
  {
    assert IsDigit(digits[0], 10);
  }

  lemma NoteIsShown(n: Note, sub: string, st: Style)
    requires st.Valid() && n.Valid(st) && '{' !in sub && IsText(Print(EventMessage(sub, n.event), st))
    ensures ActionOf(Delivery(TEXT, Octets(Print(EventMessage(sub, n.event), st))))
            == Some(ShowEvent(n.author, n.created, n.kind, n.content))
  {
    hide Print, FirstString, EventAction, EventMessage, JsonValue.Valid, Note.Valid, Octets, Chars, CStr, IsText;
    TextIsRead(Print(EventMessage(sub, n.event), st));
    TagIsRead(sub, n.event, st);
    NoteEvent(n, sub, st);
  }

  lemma NoteEvent(n: Note, sub: string, st: Style)
    requires st.Valid() && n.Valid(st) && '{' !in sub
    ensures EventAction(Print(EventMessage(sub, n.event), st)) == ShowEvent(n.author, n.created, n.kind, n.content)
  {
    hide Print, FirstObject, GetStringOrEmpty, HasText, HasNumber, NumberField, SearchKey, EventMessage, Take;
    hide JsonValue.Valid, OnlyBlanks;
    EventIsExtracted(sub, n.event, st, OBJBUF);
    WholeText(Print(n.event, st));
    NoteKeys();
    ReadsText(n.event, "pubkey", n.author, st, PUBKEYBUF);
    ReadsText(n.event, "content", n.content, st, OBJBUF);
    ReadsNumber(n.event, "created_at", n.created, st, CREATEDBUF);
    ReadsNumber(n.event, "kind", n.kind, st, KINDBUF);
  }

  lemma WholeText(s: string)
    requires |s| < OBJBUF
    ensures Take(s, OBJBUF - 1) == s
  {
  }

  lemma NoteKeys()
    ensures SearchKey("pubkey") && SearchKey("content") && SearchKey("created_at") && SearchKey("kind")
  {
  }

  function ShownNote(n: Note): Action { ShowEvent(n.author, n.created, n.kind, n.content) }

  function Shown(notes: seq<Note>): seq<Action> {
    if notes == [] then [] else [ShownNote(notes[0])] + Shown(notes[1..])
  }

  predicate Published(ms: seq<Fragmented>, notes: seq<Note>, sub: string, st: Style) {
    && |ms| == |notes|
    && forall i :: 0 <= i < |ms| ==> notes[i].Valid(st) && Carries(ms[i], Print(EventMessage(sub, notes[i].event), st))
  }

  lemma {:induction false} AllShown(ms: seq<Fragmented>, notes: seq<Note>, rest: seq<Delivery>, sub: string,
      st: Style, eoseExit: bool)
    requires st.Valid() && '{' !in sub && Published(ms, notes, sub, st)
    ensures Actions(Deliveries(ms) + rest, eoseExit) == Shown(notes) + Actions(rest, eoseExit)
  {
    hide ActionOf, Carries, EventMessage, Print, JsonValue.Valid;
    if ms == [] {
      assert Deliveries(ms) + rest == rest;
      assert Shown(notes) + Actions(rest, eoseExit) == Actions(rest, eoseExit);
    } else {
      var more := Deliveries(ms[1..]) + rest;
      var d := Delivery(ms[0].Opcode(), ms[0].Data());
      Assoc([d], Deliveries(ms[1..]), rest);
      assert ([d] + more)[1..] == more;
      CarriedText(ms[0], Print(EventMessage(sub, notes[0].event), st));
      NoteIsShown(notes[0], sub, st);
      AllShown(ms[1..], notes[1..], rest, sub, st, eoseExit);
      Assoc([ShownNote(notes[0])], Shown(notes[1..]), Actions(rest, eoseExit));
    }
  }

  lemma CarriedText(m: Fragmented, text: string)
    requires Carries(m, text)
    ensures m.Opcode() == TEXT && m.Data() == Octets(text) && IsText(text) && m.Valid()
  {
  }

  /**
   End to end: for every list of events the relay prints, in any fragmentation with control frames between, author,
   time, kind and content of each are shown in order, and then whatever the rest of the stream holds.
   */
  lemma EventsAreShown(ms: seq<Fragmented>, notes: seq<Note>, rest: seq<byte>, sub: string, st: Style, maxmsg: nat,
      eoseExit: bool)
    requires st.Valid() && '{' !in sub && Published(ms, notes, sub, st)
    requires forall i :: 0 <= i < |ms| ==> ms[i].Valid() && |ms[i].Data()| < maxmsg - 1
    ensures Watch(WireAll(ms) + rest, maxmsg, eoseExit).actions
         == Shown(notes) + Actions(Session(rest, maxmsg).messages, eoseExit)
  {
    hide Watch, Session, Actions, Shown, Published, WireAll;
    SessionDelivers(ms, rest, maxmsg);
    WatchIsSession(WireAll(ms) + rest, maxmsg, eoseExit);
    AllShown(ms, notes, Session(rest, maxmsg).messages, sub, st, eoseExit);
  }

  // ---- the C code ----

  /** `print_event`. */
  method PrintEvent(text: string) returns (a: Action)
    ensures a == EventAction(text)
  {
    hide FirstObject, GetStringOrEmpty, GetString, NumberField;
    var buf := new char[OBJBUF];
    var found := ExtractFirstObject(text, buf);
    if !found { return NoObject; }
    var obj := buf[..|FirstObject(text, OBJBUF).text|];
    var ok1, author := ReadString(obj, "pubkey", PUBKEYBUF);
    var ok2, content := ReadString(obj, "content", OBJBUF);
    var ok3, created := ReadString(obj, "created_at", CREATEDBUF);
    if created == "" { created := ReadNumber(obj, "created_at", CREATEDBUF); }
    var kind := ReadNumber(obj, "kind", KINDBUF);
    a := ShowEvent(author, created, kind, content);
  }

  /** The raw number scans of `print_event`. */
  method ReadNumber(obj: string, key: string, size: nat) returns (digits: string)
    requires size >= 1
    ensures digits == NumberField(obj, key, size)
  {
    hide FindKey;
    var q := FindKeyPtr(obj, key);
    if q == None { return ""; }
    var p := q.value;
    while p != "" && (p[0] == ' ' || p[0] == '\t')
      invariant SkipBlank(p) == SkipBlank(q.value)
      decreases |p|
    {
      p := p[1..];
    }
    digits := "";
    while p != "" && '0' <= p[0] <= '9' && |digits| < size - 1
      invariant |digits| < size && digits + DigitRun(p, size - 1 - |digits|) == DigitRun(SkipBlank(q.value), size - 1)
      decreases |p|
    {
      Assoc(digits, [p[0]], DigitRun(p[1..], size - 2 - |digits|));
      digits := digits + [p[0]];
      p := p[1..];
    }
    assert digits + "" == digits;
  }

  method Dispatch(opcode: nat, data: seq<byte>) returns (a: Option<Action>)
    ensures a == ActionOf(Delivery(opcode, data))
  {
    hide CStr, FirstString, EventAction;
    if opcode != TEXT { return None; }
    var text := CStr(Chars(data));
    var tag := FirstArrayString(text, TAGBUF);
    if tag == None { return Some(Unknown(text)); }
    if tag.value == "EVENT" {
      var shown := PrintEvent(text);
      a := Some(shown);
    } else if tag.value == "EOSE" {
      a := Some(EndOfStored);
    } else if tag.value == "NOTICE" {
      a := Some(RelayNotice(text));
    } else if tag.value == "CLOSED" {
      a := Some(SubscriptionClosed(text));
    } else {
      a := Some(Unknown(text));
    }
  }

  /** The message loop of `run_subscribe`. */
  method WatchAll(c: WsConn, msg: array<byte>, eoseExit: bool) returns (actions: seq<Action>)
    requires c.Valid() && msg.Length >= 1 && msg != c.inbuf && msg != c.pay && msg != c.pong
    modifies c, c.inbuf, c.pay, c.pong, msg
    ensures c.Valid()
    ensures var w := Watch(old(c.Stream()), msg.Length, eoseExit);
            && actions == w.actions
            && |c.sent| >= old(|c.sent|) && c.sent[..old(|c.sent|)] == old(c.sent)
            && Answers(c.sent[old(|c.sent|)..], w.pongs)
  {
    hide Assemble, Watch, ActionOf, Ends, Listed;
    actions := [];
    ghost var pongs: seq<seq<byte>> := [];
    ghost var base := |c.sent|;
    ghost var target := Watch(c.Stream(), msg.Length, eoseExit);
    assert c.sent[base..] == [];
    while true
      invariant c.Valid()
      invariant var w := Watch(c.Stream(), msg.Length, eoseExit);
                target == Watched(actions + w.actions, pongs + w.pongs)
      invariant |c.sent| >= base && c.sent[..base] == old(c.sent) && Answers(c.sent[base..], pongs)
      decreases |c.Stream()|
    {
      ghost var s, n := c.Stream(), |c.sent|;
      var status, msglen, opcode := c.ReadMessage(msg);
      ghost var o := Assemble(s, msg.Length, START);
      WatchStep(s, msg.Length, eoseExit);
      MoreAnswers(c.sent, base, n, pongs, o.pongs);
      if status != 1 {
        assert actions + [] == actions;
        return;
      }
      var a := Dispatch(opcode, msg[..msglen]);
      ghost var w := Watch(o.rest, msg.Length, eoseExit);
      if Ends(a, eoseExit) {
        actions := actions + Listed(a);
        return;
      }
      Assoc(actions, Listed(a), w.actions);
      Assoc(pongs, o.pongs, w.pongs);
      actions := actions + Listed(a);
      pongs := pongs + o.pongs;
    }
  }

  lemma MoreAnswers(sent: seq<seq<byte>>, base: nat, n: nat, a: seq<seq<byte>>, b: seq<seq<byte>>)
    requires base <= n <= |sent| && Answers(sent[..n][base..], a) && Answers(sent[n..], b)
    ensures Answers(sent[base..], a + b)
  {
    hide IsPong;
    assert sent[base..] == sent[..n][base..] + sent[n..];
  }

  /** The subscription request. */
  function Request(kinds: string, limit: int): string {
    "[\"REQ\",\"sub1\",{\"kinds\":[" + kinds + "],\"limit\":" + PrintInt(limit) + "}]"
  }

  function Farewell(): string { "[\"CLOSE\",\"sub1\"]" }

  /** What the client writes: the request, one pong for every ping in order, and the farewell. */
  predicate Written(sent: seq<seq<byte>>, request: string, pongs: seq<seq<byte>>) {
    && |sent| >= 2
    && Sends(sent[0], TEXT, Octets(request))
    && Answers(sent[1..|sent| - 1], pongs)
    && Sends(sent[|sent| - 1], TEXT, Octets(Farewell()))
  }

  /**
   `run_subscribe` from the relay's answer on: the handshake, the request, the messages, the farewell.  Header and
   frames may share reads in any way.
   */
  method RunSubscribe(stream: seq<byte>, key: string, kinds: string, limit: int, eoseExit: bool)
      returns (ok: bool, actions: seq<Action>, sent: seq<seq<byte>>)
    requires |kinds| < 128 && -0x8000_0000 <= limit < 0x8000_0000
    ensures ok ==>
              && HeaderEnd(stream).Some? && HeaderEnd(stream).value <= |stream|
              && var k := HeaderEnd(stream).value;
                 && Handshake.Opens(Chars(stream[..k]), Handshake.AcceptKey(key))
                 && var w := Watch(stream[k..], MSGBUF, eoseExit);
                    actions == w.actions && Written(sent, Request(kinds, limit), w.pongs)
    ensures !ok ==>
              || HeaderEnd(stream) == None || HeaderEnd(stream).value >= INBUF || HeaderEnd(stream).value > |stream|
              || !Handshake.Opens(Chars(stream[..HeaderEnd(stream).value]), Handshake.AcceptKey(key))
    ensures !ok ==> actions == [] && sent == []
  {
    hide HeaderEnd, Watch, Handshake.Opens, Handshake.AcceptKey, Sends, Request, Answers;
    actions, sent := [], [];
    var expected := Handshake.WsAcceptKey(key);
    var c := new WsConn(stream);
    assert c.pending == stream;
    var sep := c.AwaitHeader();
    if sep < 0 { return false, actions, sent; }
    var header := Chars(c.inbuf[..sep]);
    ok := Handshake.CheckHandshake(header, expected);
    if ok {
      RequestFits(kinds, limit);
      actions, sent := Talk(c, Request(kinds, limit), eoseExit);
    }
  }

  /** Everything after the handshake. */
  method Talk(c: WsConn, request: string, eoseExit: bool) returns (actions: seq<Action>, sent: seq<seq<byte>>)
    requires c.Valid() && c.sent == [] && |request| <= SENDBUF - 14
    modifies c, c.inbuf, c.pay, c.pong
    ensures var w := Watch(old(c.Stream()), MSGBUF, eoseExit); actions == w.actions && Written(sent, request, w.pongs)
  {
    hide Watch, Sends, Answers;
    var msg := new byte[MSGBUF];
    var asked := c.SendText(Octets(request));
    ghost var n := |c.sent|;
    actions := WatchAll(c, msg, eoseExit);
    ghost var m, before := |c.sent|, c.sent;
    FarewellFits();
    var left := c.SendText(Octets(Farewell()));
    sent := c.sent;
    assert sent[0] == sent[..m][0] == before[..n][0];
    assert sent[1..|sent| - 1] == sent[..m][1..] == before[1..];
  }

  lemma RequestFits(kinds: string, limit: int)
    requires |kinds| < 128 && -0x8000_0000 <= limit < 0x8000_0000
    ensures |Request(kinds, limit)| <= SENDBUF - 14
  {
    hide PrintNat;
    PrintedLength(if limit < 0 then -limit else limit, 10);
  }

  lemma FarewellFits()
    ensures |Octets(Farewell())| <= SENDBUF - 14
  {
  }

  lemma {:induction false} PrintedLength(n: nat, digits: nat)
    requires n < Pow10(digits) && digits >= 1
    ensures |PrintNat(n, 10)| <= digits
    decreases digits
  {
    if n >= 10 {
      if digits > 1 { PrintedLength(n / 10, digits - 1); }
    }
  }

  function Pow10(n: nat): (p: nat)
    ensures p >= 1
  {
    if n == 0 then 1 else 10 * Pow10(n - 1)
  }
}
