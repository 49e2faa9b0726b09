/**
 The WebSocket receive path of nostr.c: a compacting window refilled by reads of any size, and the message
 assembler that joins fragments, answers pings and skips pongs (RFC 6455, sections 5.4 and 5.5).

 `Assemble` and `Session` decode the whole relay stream at once; the methods of `WsConn` are proved to give
 exactly their results for every way the network may cut that stream into reads.
 */
module WsReader {
  import opened Wrappers
  import opened Bytes
  import opened WsFrame

  const INBUF := 72000
  const PAYBUF := 66000

  const SENDBUF := 8192

  const TEXT := 1
  const CLOSE := 8
  const PING := 9
  const PONG := 10

  // ---- decoding a stream at once ----

  /** What `ws_read_message` carries from frame to frame. */
  datatype Progress = Progress(first: Option<nat>, data: seq<byte>, pongs: seq<seq<byte>>)

  const START := Progress(None, [], [])

  datatype Outcome =
    | Message(opcode: nat, data: seq<byte>, rest: seq<byte>, pongs: seq<seq<byte>>)
    | Closed(rest: seq<byte>, pongs: seq<seq<byte>>)
    | Failed(rest: seq<byte>, pongs: seq<seq<byte>>)

  /** The opcode a message gets from its first data frame; a stray continuation counts as text. */
  function MessageOpcode(first: Option<nat>, opcode: nat): nat {
    match first
    case Some(op) => op
    case None => if opcode == 0 then 1 else opcode
  }

  /** A fragment that would not leave room for the terminator is dropped. */
  function Joined(data: seq<byte>, payload: seq<byte>, maxmsg: nat): seq<byte> {
    if |data| + |payload| < maxmsg - 1 then data + payload else data
  }

  function Assemble(s: seq<byte>, maxmsg: nat, p: Progress): (o: Outcome)
    ensures o.Message? ==> |o.rest| < |s|
    decreases |s|
  {
    match Parse(s, PAYBUF)
    case Incomplete => Closed(s, p.pongs)
    case Bad => Failed(s, p.pongs)
    case Ok(n, fin, opcode, payload) =>
      var rest := s[n..];
      if opcode == CLOSE then Closed(rest, p.pongs)
      else if opcode == PING then Assemble(rest, maxmsg, p.(pongs := p.pongs + [payload]))
      else if opcode == PONG then Assemble(rest, maxmsg, p)
      else
        var op := MessageOpcode(p.first, opcode);
        var data := Joined(p.data, payload, maxmsg);
        if fin then Message(op, data, rest, p.pongs)
        else Assemble(rest, maxmsg, Progress(Some(op), data, p.pongs))
  }

  /** The assembler after one parsed frame. */
  function After(opcode: nat, fin: bool, payload: seq<byte>, rest: seq<byte>, maxmsg: nat, p: Progress): Outcome {
    var op := MessageOpcode(p.first, opcode);
    var data := Joined(p.data, payload, maxmsg);
    if opcode == CLOSE then Closed(rest, p.pongs)
    else if opcode == PING then Assemble(rest, maxmsg, p.(pongs := p.pongs + [payload]))
    else if opcode == PONG then Assemble(rest, maxmsg, p)
    else if fin then Message(op, data, rest, p.pongs)
    else Assemble(rest, maxmsg, Progress(Some(op), data, p.pongs))
  }

  lemma AssembleStop(s: seq<byte>, maxmsg: nat, p: Progress)
    requires !Parse(s, PAYBUF).Ok?
    ensures Assemble(s, maxmsg, p) == if Parse(s, PAYBUF).Bad? then Failed(s, p.pongs) else Closed(s, p.pongs)
  {
    hide Parse;
  }

  lemma AssembleStep(s: seq<byte>, maxmsg: nat, p: Progress)
    requires Parse(s, PAYBUF).Ok?
    ensures var f := Parse(s, PAYBUF);
            Assemble(s, maxmsg, p) == After(f.opcode, f.fin, f.payload, s[f.consumed..], maxmsg, p)
  {
    hide Parse;
  }

  datatype Delivery = Delivery(opcode: nat, data: seq<byte>)

  /** All messages of a connection, the pings answered on the way, and whether it ended cleanly. */
  datatype Transcript = Transcript(messages: seq<Delivery>, pongs: seq<seq<byte>>, clean: bool)

  function Session(s: seq<byte>, maxmsg: nat): Transcript
    decreases |s|
  {
    match Assemble(s, maxmsg, START)
    case Closed(_, pongs) => Transcript([], pongs, true)
    case Failed(_, pongs) => Transcript([], pongs, false)
    case Message(op, data, rest, pongs) =>
      var t := Session(rest, maxmsg);
      Transcript([Delivery(op, data)] + t.messages, pongs + t.pongs, t.clean)
  }

  // ---- the same story told on frames ----

  function EncodeAll(frames: seq<Frame>): seq<byte>
    requires forall i :: 0 <= i < |frames| ==> frames[i].Valid()
  {
    if frames == [] then [] else Encode(frames[0]) + EncodeAll(frames[1..])
  }

  predicate IsData(f: Frame) { f.Opcode() !in {CLOSE, PING, PONG} }

  /** The data payloads, joined. */
  function DataOf(frames: seq<Frame>): seq<byte> {
    if frames == [] then []
    else (if IsData(frames[0]) then frames[0].payload else []) + DataOf(frames[1..])
  }

  /** The ping payloads, in order. */
  function PingsOf(frames: seq<Frame>): seq<seq<byte>> {
    if frames == [] then []
    else (if frames[0].Opcode() == PING then [frames[0].payload] else []) + PingsOf(frames[1..])
  }

  /** A frame that may stand before the last fragment of a message. */
  predicate Interior(f: Frame) {
    f.Valid() && |f.payload| <= PAYBUF && f.Opcode() != CLOSE && (IsData(f) ==> !f.Fin())
  }

  /** The frame that ends a message. */
  predicate Final(f: Frame) {
    f.Valid() && |f.payload| <= PAYBUF && IsData(f) && f.Fin()
  }

  /** One message: fragments without FIN, control frames anywhere between them, a last data frame with FIN. */
  datatype Fragmented = Fragmented(body: seq<Frame>, last: Frame) {
    predicate Valid() {
      (forall i :: 0 <= i < |body| ==> Interior(body[i])) && Final(last)
    }

    function Wire(): seq<byte>
      requires Valid()
    {
      EncodeAll(body) + Encode(last)
    }

    function Opcode(): nat { MessageOpcode(FirstOpcode(body), last.Opcode()) }

    function Data(): seq<byte> { DataOf(body) + last.payload }
  }

  /** The opcode of the first data frame, a continuation counting as text. */
  function FirstOpcode(frames: seq<Frame>): Option<nat> {
    if frames == [] then None
    else if IsData(frames[0]) then Some(MessageOpcode(None, frames[0].Opcode()))
    else FirstOpcode(frames[1..])
  }

  lemma AssembleFrame(f: Frame, rest: seq<byte>, maxmsg: nat, p: Progress)
    requires f.Valid() && |f.payload| <= PAYBUF
    ensures Assemble(Encode(f) + rest, maxmsg, p) == After(f.Opcode(), f.Fin(), f.payload, rest, maxmsg, p)
  {
    hide Parse, Encode;
    ParseEncode(f, rest, PAYBUF);
    assert (Encode(f) + rest)[|Encode(f)|..] == rest;
    AssembleStep(Encode(f) + rest, maxmsg, p);
  }

  /** What an interior frame adds to the progress. */
  function Advance(f: Frame, p: Progress): Progress {
    if f.Opcode() == PING then p.(pongs := p.pongs + [f.payload])
    else if f.Opcode() == PONG then p
    else Progress(Some(MessageOpcode(p.first, f.Opcode())), p.data + f.payload, p.pongs)
  }

  function AdvanceAll(frames: seq<Frame>, p: Progress): Progress {
    if frames == [] then p else AdvanceAll(frames[1..], Advance(frames[0], p))
  }

  lemma {:induction false} AdvanceAllCollects(frames: seq<Frame>, p: Progress)
    requires forall i :: 0 <= i < |frames| ==> frames[i].Opcode() != CLOSE
    ensures AdvanceAll(frames, p)
         == Progress(if p.first.Some? then p.first else FirstOpcode(frames),
                     p.data + DataOf(frames), p.pongs + PingsOf(frames))
  {
    if frames == [] {
      assert p.data + [] == p.data && p.pongs + [] == p.pongs;
    } else {
      var f, more := frames[0], frames[1..];
      var q := Advance(f, p);
      AdvanceAllCollects(more, q);
      var d := if IsData(f) then f.payload else [];
      var g := if f.Opcode() == PING then [f.payload] else [];
      Assoc(p.data, d, DataOf(more));
      Assoc(p.pongs, g, PingsOf(more));
      assert q.data == p.data + d && q.pongs == p.pongs + g;
    }
  }

  lemma {:induction false} InteriorsAdvance(frames: seq<Frame>, tail: seq<byte>, maxmsg: nat, p: Progress)
    requires forall i :: 0 <= i < |frames| ==> Interior(frames[i])
    requires |p.data| + |DataOf(frames)| < maxmsg - 1
    ensures forall i :: 0 <= i < |frames| ==> frames[i].Valid()
    ensures Assemble(EncodeAll(frames) + tail, maxmsg, p) == Assemble(tail, maxmsg, AdvanceAll(frames, p))
  {
    if frames == [] {
      assert EncodeAll(frames) + tail == tail;
    } else {
      var f, more := frames[0], frames[1..];
      assert EncodeAll(frames) + tail == Encode(f) + (EncodeAll(more) + tail);
      AssembleFrame(f, EncodeAll(more) + tail, maxmsg, p);
      InteriorsAdvance(more, tail, maxmsg, Advance(f, p));
    }
  }

  /**
   Fragment assembly: the message is the concatenation of the data payloads under the first data frame's
   opcode, every ping is answered once and in order, pongs do nothing, and nothing after FIN is consumed.
   */
  lemma FragmentsJoin(m: Fragmented, rest: seq<byte>, maxmsg: nat)
    requires m.Valid() && |m.Data()| < maxmsg - 1
    ensures Assemble(m.Wire() + rest, maxmsg, START) == Message(m.Opcode(), m.Data(), rest, PingsOf(m.body))
  {
    assert m.Wire() + rest == EncodeAll(m.body) + (Encode(m.last) + rest);
    InteriorsAdvance(m.body, Encode(m.last) + rest, maxmsg, START);
    AdvanceAllCollects(m.body, START);
    var q := AdvanceAll(m.body, START);
    assert q.data == DataOf(m.body) && q.pongs == PingsOf(m.body);
    AssembleFrame(m.last, rest, maxmsg, q);
  }

  /** An assembled message always leaves room for its terminator. */
  lemma {:induction false} MessageFits(s: seq<byte>, maxmsg: nat, p: Progress)
    requires maxmsg >= 2 && |p.data| < maxmsg - 1
    ensures var o := Assemble(s, maxmsg, p); o.Message? ==> |o.data| < maxmsg - 1
    decreases |s|
  {
    hide ParseLead, Assemble;
    var f := Parse(s, PAYBUF);
    if f.Ok? {
      AssembleStep(s, maxmsg, p);
      var rest := s[f.consumed..];
      MessageFits(rest, maxmsg, p.(pongs := p.pongs + [f.payload]));
      MessageFits(rest, maxmsg, p);
      var data := Joined(p.data, f.payload, maxmsg);
      MessageFits(rest, maxmsg, Progress(Some(MessageOpcode(p.first, f.opcode)), data, p.pongs));
    } else {
      AssembleStop(s, maxmsg, p);
    }
  }

  /** So a message arrives whole exactly when it leaves room for the terminator; a longer one loses fragments. */
  lemma ArrivesWholeIffItFits(m: Fragmented, rest: seq<byte>, maxmsg: nat)
    requires m.Valid() && maxmsg >= 2
    ensures Assemble(m.Wire() + rest, maxmsg, START) == Message(m.Opcode(), m.Data(), rest, PingsOf(m.body))
            <==> |m.Data()| < maxmsg - 1
  {
    hide Assemble, DataOf, PingsOf;
    if |m.Data()| < maxmsg - 1 {
      FragmentsJoin(m, rest, maxmsg);
    } else {
      MessageFits(m.Wire() + rest, maxmsg, START);
    }
  }

  function WireAll(ms: seq<Fragmented>): seq<byte>
    requires forall i :: 0 <= i < |ms| ==> ms[i].Valid()
  {
    if ms == [] then [] else ms[0].Wire() + WireAll(ms[1..])
  }

  function Deliveries(ms: seq<Fragmented>): seq<Delivery> {
    if ms == [] then [] else [Delivery(ms[0].Opcode(), ms[0].Data())] + Deliveries(ms[1..])
  }

  function PingsOfAll(ms: seq<Fragmented>): seq<seq<byte>> {
    if ms == [] then [] else PingsOf(ms[0].body) + PingsOfAll(ms[1..])
  }

  /** A whole connection: every message arrives, in order, whatever follows on the wire. */
  lemma {:induction false} SessionDelivers(ms: seq<Fragmented>, tail: seq<byte>, maxmsg: nat)
    requires forall i :: 0 <= i < |ms| ==> ms[i].Valid() && |ms[i].Data()| < maxmsg - 1
    ensures var t := Session(tail, maxmsg);
            Session(WireAll(ms) + tail, maxmsg)
            == Transcript(Deliveries(ms) + t.messages, PingsOfAll(ms) + t.pongs, t.clean)
  {
    hide Assemble, Session, EncodeAll, DataOf, PingsOf, FirstOpcode;
    var t := Session(tail, maxmsg);
    if ms == [] {
      assert WireAll(ms) + tail == tail;
      assert Deliveries(ms) + t.messages == t.messages && PingsOfAll(ms) + t.pongs == t.pongs;
    } else {
      var m, more := ms[0], ms[1..];
      Assoc(m.Wire(), WireAll(more), tail);
      FragmentsJoin(m, WireAll(more) + tail, maxmsg);
      SessionStep(WireAll(ms) + tail, maxmsg);
      SessionDelivers(more, tail, maxmsg);
      Assoc([Delivery(m.Opcode(), m.Data())], Deliveries(more), t.messages);
      Assoc(PingsOf(m.body), PingsOfAll(more), t.pongs);
    }
  }

  /** Interior frames, then bytes that hold no whole frame: the end of the stream, or a frame that is refused. */
  lemma BodyThenStop(body: seq<Frame>, tail: seq<byte>, maxmsg: nat)
    requires forall i :: 0 <= i < |body| ==> Interior(body[i])
    requires |DataOf(body)| < maxmsg - 1 && !Parse(tail, PAYBUF).Ok?
    ensures forall i :: 0 <= i < |body| ==> body[i].Valid()
    ensures Assemble(EncodeAll(body) + tail, maxmsg, START)
         == if Parse(tail, PAYBUF).Bad? then Failed(tail, PingsOf(body)) else Closed(tail, PingsOf(body))
  {
    hide Parse, Assemble, DataOf, PingsOf;
    InteriorsAdvance(body, tail, maxmsg, START);
    AdvanceAllCollects(body, START);
    assert [] + PingsOf(body) == PingsOf(body);
    AssembleStop(tail, maxmsg, AdvanceAll(body, START));
  }

  /** A frame with more payload than the buffer holds is an error. */
  lemma OversizeFails(body: seq<Frame>, f: Frame, rest: seq<byte>, maxmsg: nat)
    requires (forall i :: 0 <= i < |body| ==> Interior(body[i])) && |DataOf(body)| < maxmsg - 1
    requires f.Valid() && |f.payload| > PAYBUF
    ensures forall i :: 0 <= i < |body| ==> body[i].Valid()
    ensures Assemble(EncodeAll(body) + (Encode(f) + rest), maxmsg, START) == Failed(Encode(f) + rest, PingsOf(body))
  {
    hide Parse, Assemble, DataOf, PingsOf, Encode;
    ParseEncode(f, rest, PAYBUF);
    BodyThenStop(body, Encode(f) + rest, maxmsg);
  }

  /** A stream that ends inside a frame ends cleanly, whatever was begun. */
  lemma CutOffEnds(body: seq<Frame>, f: Frame, k: nat, maxmsg: nat)
    requires (forall i :: 0 <= i < |body| ==> Interior(body[i])) && |DataOf(body)| < maxmsg - 1
    requires f.Valid() && |f.payload| <= PAYBUF && k < |Encode(f)|
    ensures forall i :: 0 <= i < |body| ==> body[i].Valid()
    ensures Assemble(EncodeAll(body) + Encode(f)[..k], maxmsg, START) == Closed(Encode(f)[..k], PingsOf(body))
  {
    hide Parse, Assemble, DataOf, PingsOf, Encode;
    StrictPrefixIncomplete(f, k, PAYBUF);
    BodyThenStop(body, Encode(f)[..k], maxmsg);
  }

  /** A close frame ends the connection cleanly: pings before it are answered, an unfinished message is given up. */
  lemma CloseEnds(body: seq<Frame>, c: Frame, rest: seq<byte>, maxmsg: nat)
    requires (forall i :: 0 <= i < |body| ==> Interior(body[i])) && |DataOf(body)| < maxmsg - 1
    requires c.Valid() && c.Opcode() == 8 && |c.payload| <= PAYBUF
    ensures forall i :: 0 <= i < |body| ==> body[i].Valid()
    ensures Assemble(EncodeAll(body) + (Encode(c) + rest), maxmsg, START) == Closed(rest, PingsOf(body))
  {
    hide Parse, Assemble, DataOf, PingsOf, Encode;
    InteriorsAdvance(body, Encode(c) + rest, maxmsg, START);
    AdvanceAllCollects(body, START);
    assert [] + PingsOf(body) == PingsOf(body);
    AssembleFrame(c, rest, maxmsg, AdvanceAll(body, START));
  }

  /** A whole connection up to a close frame: exactly its messages, a clean end, and nothing after it is looked at. */
  lemma SessionCloses(ms: seq<Fragmented>, body: seq<Frame>, c: Frame, rest: seq<byte>, maxmsg: nat)
    requires forall i :: 0 <= i < |ms| ==> ms[i].Valid() && |ms[i].Data()| < maxmsg - 1
    requires (forall i :: 0 <= i < |body| ==> Interior(body[i])) && |DataOf(body)| < maxmsg - 1
    requires c.Valid() && c.Opcode() == 8 && |c.payload| <= PAYBUF
    ensures forall i :: 0 <= i < |body| ==> body[i].Valid()
    ensures Session(WireAll(ms) + (EncodeAll(body) + (Encode(c) + rest)), maxmsg)
         == Transcript(Deliveries(ms), PingsOfAll(ms) + PingsOf(body), true)
  {
    hide Assemble, Session, EncodeAll, DataOf, PingsOf, Encode, WireAll;
    var tail := EncodeAll(body) + (Encode(c) + rest);
    CloseEnds(body, c, rest, maxmsg);
    SessionEnd(tail, maxmsg);
    SessionDelivers(ms, tail, maxmsg);
    assert Deliveries(ms) + [] == Deliveries(ms);
  }

  /** A message has the opcode of its first data frame; when that is a continuation, it counts as text. */
  lemma {:induction false} DeliveredOpcode(m: Fragmented, i: nat)
    requires i <= |m.body| && var all := m.body + [m.last]; IsData(all[i]) && forall k :: 0 <= k < i ==> !IsData(all[k])
    ensures var op := (m.body + [m.last])[i].Opcode(); m.Opcode() == if op == 0 then 1 else op
    decreases |m.body|
  {
    if m.body != [] {
      if i > 0 {
        var rest := Fragmented(m.body[1..], m.last);
        var all, less := m.body + [m.last], rest.body + [rest.last];
        assert less == all[1..];
        assert !IsData(all[0]) && all[0] == m.body[0];
        DeliveredOpcode(rest, i - 1);
      }
    }
  }

  /** A data frame is appended when terminator and one more octet fit behind it, and dropped otherwise. */
  lemma DataFrameStep(f: Frame, rest: seq<byte>, maxmsg: nat, op: nat, data: seq<byte>, pongs: seq<seq<byte>>)
    requires f.Valid() && |f.payload| <= PAYBUF && IsData(f)
    ensures var now := if |data| + |f.payload| < maxmsg - 1 then data + f.payload else data;
            Assemble(Encode(f) + rest, maxmsg, Progress(Some(op), data, pongs))
            == if f.Fin() then Message(op, now, rest, pongs)
               else Assemble(rest, maxmsg, Progress(Some(op), now, pongs))
  {
    hide Assemble, Encode;
    AssembleFrame(f, rest, maxmsg, Progress(Some(op), data, pongs));
  }

  /** What a frame does, by the code in its first octet (section 5.2 of RFC 6455). */
  lemma FrameCodes(f: Frame, rest: seq<byte>, maxmsg: nat, p: Progress)
    requires f.Valid() && |f.payload| <= PAYBUF
    ensures var o, code := Assemble(Encode(f) + rest, maxmsg, p), f.head % 16;
            var now := if |p.data| + |f.payload| < maxmsg - 1 then p.data + f.payload else p.data;
            && (code == 8 ==> o == Closed(rest, p.pongs))
            && (code == 9 ==> o == Assemble(rest, maxmsg, p.(pongs := p.pongs + [f.payload])))
            && (code == 10 ==> o == Assemble(rest, maxmsg, p))
            && (code !in {8, 9, 10} && f.head >= 128 ==> o.Message? && o.data == now && o.rest == rest)
            && (code !in {8, 9, 10} && f.head < 128 && p.first.Some?
                ==> o == Assemble(rest, maxmsg, Progress(p.first, now, p.pongs)))
  {
    hide Assemble, Encode;
    AssembleFrame(f, rest, maxmsg, p);
  }

  lemma SessionStep(s: seq<byte>, maxmsg: nat)
    requires Assemble(s, maxmsg, START).Message?
    ensures var o := Assemble(s, maxmsg, START);
            var t := Session(o.rest, maxmsg);
            Session(s, maxmsg) == Transcript([Delivery(o.opcode, o.data)] + t.messages, o.pongs + t.pongs, t.clean)
  {
    hide Assemble;
  }

  lemma SessionEnd(s: seq<byte>, maxmsg: nat)
    requires !Assemble(s, maxmsg, START).Message?
    ensures var o := Assemble(s, maxmsg, START);
            Session(s, maxmsg) == Transcript([], o.pongs, o.Closed?)
  {
    hide Assemble;
  }

  // ---- what the client sends back ----

  /** What is written to the relay is one masked final frame with this opcode and payload. */
  predicate Sends(wire: seq<byte>, opcode: nat, payload: seq<byte>) {
    Parse(wire, PAYBUF) == Ok(|wire|, true, opcode, payload) && |wire| >= 2 && wire[1] >= 128
  }

  predicate IsPong(wire: seq<byte>, payload: seq<byte>) { Sends(wire, PONG, payload) }

  predicate Answers(wires: seq<seq<byte>>, payloads: seq<seq<byte>>) {
    |wires| == |payloads| && forall i :: 0 <= i < |wires| ==> IsPong(wires[i], payloads[i])
  }

  /** What is sent is final and carries its code in its first octet; a pong's code is ten. */
  lemma SentCode(wire: seq<byte>, opcode: nat, payload: seq<byte>)
    requires Sends(wire, opcode, payload)
    ensures wire[0] >= 128 && wire[0] % 16 == opcode
    ensures IsPong(wire, payload) <==> opcode == 10
  {
    hide Parse, Encode;
    var f := ParsedIsFrame(wire, PAYBUF);
    WireLayout(f);
    assert wire[..|wire|] == wire;
  }

  lemma AnswersNothing()
    ensures Answers([], [])
  {
  }

  lemma AnswersSnoc(sent: seq<seq<byte>>, f: seq<byte>, pings: seq<seq<byte>>, ping: seq<byte>)
    requires Answers(sent, pings) && IsPong(f, ping)
    ensures Answers(sent + [f], pings + [ping])
  {
    hide IsPong;
  }

  lemma ClientFrameSends(payload: seq<byte>, opcode: nat, mask: seq<byte>)
    requires |mask| == 4 && |payload| <= PAYBUF && opcode < 16
    requires ClientFrame(payload, opcode, mask).Valid()
    ensures Sends(Encode(ClientFrame(payload, opcode, mask)), opcode, payload)
  {
    hide Parse, Encode;
    var wire := Encode(ClientFrame(payload, opcode, mask));
    BuiltFrameRoundTrip(payload, opcode, mask, [], PAYBUF);
    assert wire + [] == wire;
    ClientFrameIsMasked(payload, opcode, mask);
  }

  // ---- the end of the handshake ----

  /** `find_header_end`: the index just past the first CR LF CR LF. */
  function HeaderEnd(b: seq<byte>): Option<nat> {
    if |b| < 4 then None
    else if b[0] == 13 && b[1] == 10 && b[2] == 13 && b[3] == 10 then Some(4)
    else match HeaderEnd(b[1..]) case None => None case Some(k) => Some(k + 1)
  }

  /** CR LF CR LF just before `k`. */
  predicate BlankLineAt(b: seq<byte>, k: nat) {
    4 <= k <= |b| && b[k - 4] == 13 && b[k - 3] == 10 && b[k - 2] == 13 && b[k - 1] == 10
  }

  lemma BlankLineLater(b: seq<byte>, k: nat)
    requires b != [] && k >= 5
    ensures BlankLineAt(b, k) <==> BlankLineAt(b[1..], k - 1)
  {
  }

  /** The header ends just past the first CR LF CR LF. */
  lemma {:induction false} HeaderEndIsFirst(b: seq<byte>, j: nat)
    ensures match HeaderEnd(b)
            case None => !BlankLineAt(b, j)
            case Some(k) => BlankLineAt(b, k) && (j < k ==> !BlankLineAt(b, j))
  {
    if |b| >= 4 && !BlankLineAt(b, 4) {
      HeaderEndIsFirst(b[1..], if j == 0 then 0 else j - 1);
      if j >= 5 { BlankLineLater(b, j); }
      if HeaderEnd(b[1..]).Some? {
        var k := HeaderEnd(b[1..]).value;
        BlankLineLater(b, k + 1);
      }
    }
  }

  /** A header end found in a prefix is the header end of the whole. */
  lemma {:induction false} HeaderEndPrefix(b: seq<byte>, n: nat)
    requires n <= |b|
    ensures HeaderEnd(b[..n]) == match HeaderEnd(b) case None => None case Some(k) => if k <= n then Some(k) else None
    ensures HeaderEnd(b).Some? ==> 4 <= HeaderEnd(b).value <= |b|
  {
    if |b| >= 4 {
      if n > 0 {
        HeaderEndPrefix(b[1..], n - 1);
        assert b[..n][1..] == b[1..][..n - 1];
      } else {
        HeaderEndPrefix(b[1..], 0);
      }
    }
  }

  // ---- the connection ----

  /** The state of nostr.c's receive path; `pending` is what the relay still has to deliver before it closes. */
  class WsConn {
    const inbuf: array<byte>
    const pay: array<byte>
    const pong: array<byte>
    var inLen: nat
    var inPos: nat
    var pending: seq<byte>
    var sent: seq<seq<byte>>

    ghost predicate Valid()
      reads this
    {
      && inbuf.Length == INBUF && pay.Length == PAYBUF && pong.Length == PAYBUF + 16
      && inbuf != pay && inbuf != pong && pay != pong
      && inPos <= inLen <= INBUF
    }

    /** The bytes not yet consumed, buffered or not. */
    ghost function Stream(): seq<byte>
      reads this, inbuf
      requires Valid()
    {
      inbuf[inPos..inLen] + pending
    }

    constructor (stream: seq<byte>)
      ensures Valid() && pending == stream && sent == [] && inPos == inLen == 0
      ensures fresh(inbuf) && fresh(pay) && fresh(pong)
    {
      inbuf := new byte[INBUF];
      pay := new byte[PAYBUF];
      pong := new byte[PAYBUF + 16];
      inLen, inPos, pending, sent := 0, 0, stream, [];
    }

    /** `conn_read`: any number of bytes up to the room left; nothing only at the end of the stream. */
    method ConnRead() returns (got: nat)
      requires Valid() && inLen < INBUF
      modifies this`pending, inbuf
      ensures Valid()
      ensures got == 0 <==> old(pending) == []
      ensures got <= |old(pending)| && inLen + got <= INBUF
      ensures pending == old(pending)[got..]
      ensures inbuf[..inLen] == old(inbuf[..inLen])
      ensures inbuf[inLen..inLen + got] == old(pending)[..got]
    {
      if pending == [] { return 0; }
      assert 1 <= 1 <= |pending| && inLen + 1 <= INBUF;
      got :| 1 <= got <= |pending| && inLen + got <= INBUF;
      forall i | 0 <= i < got { inbuf[inLen + i] := pending[i]; }
      pending := pending[got..];
    }

    /** `ws_ensure`: succeeds unless the stream ends or the window is full; no byte is lost or moved out of order. */
    method Ensure(n: nat) returns (ok: bool)
      requires Valid()
      modifies this`inLen, this`inPos, this`pending, inbuf
      ensures Valid() && Stream() == old(Stream())
      ensures ok ==> inLen - inPos >= n && |pending| <= old(|pending|)
      ensures ok && n > old(inLen - inPos) ==> |pending| < old(|pending|)
      ensures !ok ==> inLen - inPos < n && (pending == [] || (inPos == 0 && inLen == INBUF))
    {
      while inLen - inPos < n
        invariant Valid() && Stream() == old(Stream())
        invariant |pending| <= old(|pending|)
        invariant inLen - inPos == old(inLen - inPos) || |pending| < old(|pending|)
        decreases |pending|
      {
        if inPos > 0 {
          Compact();
        }
        if inLen >= INBUF { return false; }
        var got := Refill();
        if got == 0 { return false; }
      }
      ok := true;
    }

    /** One read into the window. */
    method Refill() returns (got: nat)
      requires Valid() && inLen < INBUF
      modifies this`inLen, this`pending, inbuf
      ensures Valid() && Stream() == old(Stream())
      ensures inLen == old(inLen) + got && |pending| == old(|pending|) - got
      ensures got == 0 <==> old(pending) == []
    {
      ghost var before, arriving := inbuf[inPos..inLen], pending;
      got := ConnRead();
      assert inbuf[inPos..inLen] == inbuf[..inLen][inPos..] == before;
      assert inbuf[inPos..inLen + got] == before + arriving[..got];
      Assoc(before, arriving[..got], arriving[got..]);
      assert arriving[..got] + arriving[got..] == arriving;
      inLen := inLen + got;
    }

    /** The `memmove` that brings the unread bytes to the front. */
    method Compact()
      requires Valid()
      modifies this`inLen, this`inPos, inbuf
      ensures Valid() && inPos == 0 && inLen == old(inLen - inPos)
      ensures inbuf[inPos..inLen] == old(inbuf[inPos..inLen])
    {
      forall i | 0 <= i < inLen - inPos { inbuf[i] := inbuf[inPos + i]; }
      inLen, inPos := inLen - inPos, 0;
    }

    /** `conn_write` of a pong; the mask is whatever the generator yields. */
    method SendPong(plen: nat)
      requires Valid() && plen <= PAYBUF
      modifies this`sent, pong
      ensures Valid() && |sent| == old(|sent|) + 1 && sent[..old(|sent|)] == old(sent)
      ensures IsPong(sent[old(|sent|)], pay[..plen])
    {
      hide ClientFrame, Encode;
      var zeros: seq<byte> := [0, 0, 0, 0];
      assert |zeros| == 4;
      var mask: seq<byte> :| |mask| == 4;
      var fl := BuildFrame(pong, pay, plen, PONG, mask);
      ClientFrameSends(pay[..plen], PONG, mask);
      if fl > 0 {
        sent := sent + [pong[..fl]];
      }
    }

    /** `ws_send_text`: a text frame, unless it is too long for its buffer. */
    method SendText(text: seq<byte>) returns (ok: bool)
      requires Valid()
      modifies this`sent
      ensures Valid() && Stream() == old(Stream())
      ensures ok <==> |text| <= SENDBUF - 14
      ensures !ok ==> sent == old(sent)
      ensures ok ==> |sent| == old(|sent|) + 1 && sent[..old(|sent|)] == old(sent)
      ensures ok ==> Sends(sent[|sent| - 1], TEXT, text)
    {
      hide Sends;
      if |text| > SENDBUF - 14 { return false; }
      var wire := FrameText(text);
      sent := sent + [wire];
      ok := true;
    }

    /** The leftover handling of `ws_handshake`: read up to the blank line, keep what follows as frame data. */
    method AwaitHeader() returns (sep: int)
      requires Valid()
      modifies this`inLen, this`inPos, this`pending, inbuf
      ensures Valid()
      ensures sep == -1 || 4 <= sep <= |old(pending)|
      ensures sep != -1 ==> HeaderEnd(old(pending)) == Some(sep) && Stream() == old(pending)[sep..]
      ensures sep != -1 ==> sep <= INBUF && inbuf[..sep] == old(pending)[..sep]
      ensures sep == -1 ==> HeaderEnd(old(pending)) == None || HeaderEnd(old(pending)).value >= INBUF
    {
      hide HeaderEnd;
      ghost var stream := pending;
      inLen, inPos := 0, 0;
      HeaderEndPrefix(stream, 0);
      while true
        invariant Valid() && inPos == 0 && Stream() == stream
        invariant HeaderEnd(inbuf[..inLen]) == None
        decreases |pending|
      {
        Buffered(stream);
        if inLen >= INBUF - 1 { return -1; }
        var got := Refill();
        Buffered(stream);
        if got == 0 { return -1; }
        var end := FindHeaderEnd(inbuf, inLen);
        if end >= 0 {
          Consume(end);
          return end;
        }
      }
    }

    /** While nothing is consumed the window is the beginning of the stream. */
    lemma Buffered(stream: seq<byte>)
      requires Valid() && inPos == 0 && Stream() == stream
      ensures inLen <= |stream| && inbuf[..inLen] == stream[..inLen] && (pending == [] ==> inbuf[..inLen] == stream)
      ensures HeaderEnd(stream) == None || HeaderEnd(stream).value <= |stream|
      ensures match HeaderEnd(inbuf[..inLen])
              case None => HeaderEnd(stream) == None || HeaderEnd(stream).value > inLen
              case Some(k) => HeaderEnd(stream) == Some(k) && 4 <= k <= inLen && inbuf[..k] == stream[..k]
    {
      hide HeaderEnd;
      assert stream == inbuf[..inLen] + pending;
      HeaderEndPrefix(stream, inLen);
      HeaderEndPrefix(inbuf[..inLen], inLen);
      assert inbuf[..inLen][..inLen] == inbuf[..inLen];
      var h := HeaderEnd(inbuf[..inLen]);
      if h.Some? { assert inbuf[..h.value] == inbuf[..inLen][..h.value] == stream[..inLen][..h.value]; }
    }

    /**
     `ws_read_message`: 1 with a message, 0 at a close frame or the end of the stream, -1 on a bad frame.
     The result, the bytes left and the pongs sent depend only on the stream, not on how reads cut it.
     */
    method ReadMessage(msg: array<byte>) returns (status: int, msglen: nat, opcode: nat)
      requires Valid() && msg.Length >= 1 && msg != inbuf && msg != pay && msg != pong
      modifies this`inLen, this`inPos, this`pending, this`sent, inbuf, pay, pong, msg
      ensures Valid() && msglen <= msg.Length
      ensures var o := Assemble(old(Stream()), msg.Length, START);
              && Stream() == o.rest
              && |sent| >= old(|sent|) && sent[..old(|sent|)] == old(sent)
              && Answers(sent[old(|sent|)..], o.pongs)
              && match o
                 case Message(op, data, _, _) =>
                   status == 1 && opcode == op && msg[..msglen] == data && msglen < msg.Length && msg[msglen] == 0
                 case Closed(_, _) => status == 0
                 case Failed(_, _) => status == -1
    {
      hide Parse, Assemble, Answers, IsPong;
      AnswersNothing();
      var total: nat := 0;
      var first: Option<nat> := None;
      msglen, opcode := 0, 0;
      ghost var pongs: seq<seq<byte>> := [];
      ghost var target := Assemble(Stream(), msg.Length, START);
      ghost var base := |sent|;
      assert sent[base..] == [];
      while true
        invariant Valid() && total < msg.Length
        invariant total == 0 || total < msg.Length - 1
        invariant Assemble(Stream(), msg.Length, Progress(first, msg[..total], pongs)) == target
        invariant |sent| >= base && sent[..base] == old(sent) && Answers(sent[base..], pongs)
        decreases |Stream()|
      {
        var r, fin, op, plen := NextFrame();
        ghost var s := Stream();
        ghost var p := Progress(first, msg[..total], pongs);
        if r <= 0 {
          AssembleStop(s, msg.Length, p);
          return r, msglen, opcode;
        }
        ghost var payload := pay[..plen];
        AssembleStep(s, msg.Length, p);
        assert After(op, fin, payload, s[r..], msg.Length, p) == target;
        Consume(r);
        if op == CLOSE { return 0, msglen, opcode; }
        if op == PING {
          AnswerPing(plen, base, pongs);
          pongs := pongs + [payload];
          assert msg[..total] == p.data;
          continue;
        }
        if op == PONG { continue; }
        if first == None { first := Some(if op == 0 then 1 else op); }
        assert first == Some(MessageOpcode(p.first, op));
        total := Append(msg, total, plen);
        if fin {
          msg[total] := 0;
          msglen, opcode := total, first.value;
          return 1, msglen, opcode;
        }
      }
    }

    /** `g_in_pos += consumed`. */
    method Consume(n: nat)
      requires Valid() && inPos + n <= inLen
      modifies this`inPos
      ensures Valid() && Stream() == old(Stream())[n..]
    {
      assert inbuf[inPos..inLen][n..] == inbuf[inPos + n..inLen];
      inPos := inPos + n;
    }

    /** One more ping answered. */
    method AnswerPing(plen: nat, ghost base: nat, ghost pongs: seq<seq<byte>>)
      requires Valid() && plen <= PAYBUF && base <= |sent| && Answers(sent[base..], pongs)
      modifies this`sent, pong
      ensures Valid() && Stream() == old(Stream()) && |sent| >= old(|sent|)
      ensures sent[..base] == old(sent[..base]) && Answers(sent[base..], pongs + [pay[..plen]])
    {
      hide Answers, IsPong;
      ghost var n := |sent|;
      SendPong(plen);
      assert sent[base..] == sent[..n][base..] + [sent[n]];
      assert sent[..base] == sent[..n][..base];
      AnswersSnoc(sent[..n][base..], sent[n], pongs, pay[..plen]);
    }

    /** Room permitting, copies the payload behind what the message already holds. */
    method Append(msg: array<byte>, total: nat, plen: nat) returns (n: nat)
      requires Valid() && plen <= PAYBUF && total < msg.Length && msg != inbuf && msg != pay && msg != pong
      modifies msg
      ensures Stream() == old(Stream())
      ensures n == total || n < msg.Length - 1
      ensures n < msg.Length && msg[..n] == Joined(old(msg[..total]), pay[..plen], msg.Length)
    {
      n := total;
      if total + plen < msg.Length - 1 {
        forall i | 0 <= i < plen { msg[total + i] := pay[i]; }
        n := total + plen;
        assert msg[..n] == old(msg[..total]) + pay[..plen];
      }
    }

    /** The inner loop of `ws_read_message`: pull bytes until a whole frame is buffered; 0 at the end of the stream. */
    method NextFrame() returns (r: int, fin: bool, opcode: nat, plen: nat)
      requires Valid()
      modifies this`inLen, this`inPos, this`pending, inbuf, pay
      ensures Valid() && Stream() == old(Stream()) && plen <= PAYBUF
      ensures match Parse(Stream(), PAYBUF)
              case Incomplete => r == 0
              case Bad => r == -1
              case Ok(n, f, op, data) =>
                r == n > 0 && inPos + n <= inLen && fin == f && opcode == op && pay[..plen] == data
    {
      hide Parse;
      while true
        invariant Valid() && Stream() == old(Stream())
        decreases |pending|
      {
        ghost var window := inbuf[inPos..inLen];
        r, fin, opcode, plen := ParseFrame(inbuf, inPos, inLen - inPos, pay);
        assert inbuf[inPos..inPos + (inLen - inPos)] == window;
        if r != 0 {
          assert Stream() == window + pending;
          ParseStable(window, pending, PAYBUF);
          return;
        }
        IncompleteIsShort(window, PAYBUF);
        var more := Ensure(inLen - inPos + 1);
        if !more {
          assert pending == [];
          assert Stream() == inbuf[inPos..inLen] && |Stream()| <= |window|;
          assert Stream() == window;
          return;
        }
      }
    }

    /** The loop of `run_subscribe` around `ws_read_message`: every message until the connection ends. */
    method ReadAll(msg: array<byte>) returns (messages: seq<Delivery>, clean: bool)
      requires Valid() && msg.Length >= 1 && msg != inbuf && msg != pay && msg != pong
      modifies this`inLen, this`inPos, this`pending, this`sent, inbuf, pay, pong, msg
      ensures Valid()
      ensures var t := Session(old(Stream()), msg.Length);
              && messages == t.messages && clean == t.clean
              && |sent| >= old(|sent|) && sent[..old(|sent|)] == old(sent)
              && Answers(sent[old(|sent|)..], t.pongs)
    {
      hide Assemble, Session;
      messages := [];
      ghost var pongs: seq<seq<byte>> := [];
      ghost var base := |sent|;
      ghost var target := Session(Stream(), msg.Length);
      while true
        invariant Valid()
        invariant var t := Session(Stream(), msg.Length);
                  target == Transcript(messages + t.messages, pongs + t.pongs, t.clean)
        invariant |sent| >= base && sent[..base] == old(sent) && Answers(sent[base..], pongs)
        decreases |Stream()|
      {
        ghost var s, n := Stream(), |sent|;
        var status, msglen, opcode := ReadMessage(msg);
        ghost var o := Assemble(s, msg.Length, START);
        assert Answers(sent[base..], pongs + o.pongs) by {
          assert sent[base..] == sent[..n][base..] + sent[n..];
        }
        if status == 1 {
          SessionStep(s, msg.Length);
          ghost var t := Session(o.rest, msg.Length);
          Assoc(messages, [Delivery(o.opcode, o.data)], t.messages);
          Assoc(pongs, o.pongs, t.pongs);
          messages := messages + [Delivery(opcode, msg[..msglen])];
          pongs := pongs + o.pongs;
        } else {
          SessionEnd(s, msg.Length);
          assert messages + [] == messages;
          return messages, status == 0;
        }
      }
    }
  }

  /** The frame of `ws_send_text`; the mask is whatever the generator yields. */
  method FrameText(text: seq<byte>) returns (wire: seq<byte>)
    requires |text| <= SENDBUF - 14
    ensures Sends(wire, TEXT, text)
  {
    hide Sends, Encode;
    var payload := new byte[|text|];
    forall i | 0 <= i < |text| { payload[i] := text[i]; }
    assert payload[..|text|] == text;
    var frame := new byte[SENDBUF];
    var zeros: seq<byte> := [0, 0, 0, 0];
    assert |zeros| == 4;
    var mask: seq<byte> :| |mask| == 4;
    var n := BuildFrame(frame, payload, |text|, TEXT, mask);
    ClientFrameSends(text, TEXT, mask);
    wire := frame[..n];
  }

  /** The scan of `find_header_end` over the first `n` buffered bytes. */
  method FindHeaderEnd(b: array<byte>, n: nat) returns (end: int)
    requires n <= b.Length
    ensures end == match HeaderEnd(b[..n]) case None => -1 case Some(k) => k
  {
    var i := 0;
    while i + 3 < n
      invariant 0 <= i <= n
      invariant HeaderEnd(b[..n]) == match HeaderEnd(b[i..n]) case None => None case Some(k) => Some(i + k)
    {
      assert b[i..n][1..] == b[i + 1..n];
      if b[i] == 13 && b[i + 1] == 10 && b[i + 2] == 13 && b[i + 3] == 10 { return i + 4; }
      i := i + 1;
    }
    end := -1;
  }
}
