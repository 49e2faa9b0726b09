/**
 The content-block collector of the Claude client: it walks the printed content array of a reply, joins the
 text blocks and records the tool calls.

 `Collect` follows the code on the text of the array.  `CollectPrinted` ties it to the JSON values for every
 array of objects, and `CollectsBlocks` to the blocks of the Messages API.
 */
module ClaudeCollector {
  import opened Wrappers
  import opened Bytes
  import opened CText
  import opened JsonText
  import opened JsonScan
  import opened JsonValue
  import opened JsonLookup

  const OBJBUF := 40960
  const TEXTBUF := 32768
  const INPUTBUF := 2048
  const TYPEBUF := 24
  const IDLEN := 128
  const NAMELEN := 32

  datatype ToolCall = ToolCall(id: string, name: string, input: string)

  datatype Collected = Collected(text: string, calls: seq<ToolCall>)

  function AddText(c: Collected, t: string, textlen: nat): Collected {
    if |c.text| + |t| < textlen - 1 then c.(text := c.text + t) else c
  }

  function AddCall(c: Collected, call: ToolCall, maxcalls: nat): Collected {
    if |c.calls| < maxcalls then c.(calls := c.calls + [call]) else c
  }

  // ---- on text ----

  /** What one copied object adds. */
  function Block(obj: string, textlen: nat, maxcalls: nat, c: Collected): Collected {
    var kind := GetStringOrEmpty(obj, "type", TYPEBUF);
    if kind == "text" then
      match GetString(obj, "text", TEXTBUF)
      case None => c
      case Some(t) => AddText(c, t, textlen)
    else if kind == "tool_use" then
      AddCall(c, ToolCall(GetStringOrEmpty(obj, "id", IDLEN), GetStringOrEmpty(obj, "name", NAMELEN),
          InputText(RawSpan(obj, "input"))), maxcalls)
    else c
  }

  function InputText(span: Option<string>): string {
    match span case None => "" case Some(s) => Take(s, INPUTBUF - 1)
  }

  /** `collect_text_and_tools` from a position in the array. */
  function Collect(p: string, textlen: nat, maxcalls: nat, c: Collected): Collected
    decreases |p|
  {
    match NextObj(p, OBJBUF)
    case None => c
    case Some(n) =>
      SeekObjectIsSuffix(p);
      Collect(n.rest, textlen, maxcalls, Block(n.copy, textlen, maxcalls, c))
  }

  // ---- on values ----

  /** A string value as it arrives in a buffer of `outlen`; anything else leaves the buffer empty. */
  function Decoded(v: Option<Json>, outlen: nat): Option<string> {
    match v
    case Some(Str(raw)) => Some(CStr(UnescapeWithin(raw, outlen - 4)))
    case _ => None
  }

  function OrEmpty(o: Option<string>): string { match o case None => "" case Some(s) => s }

  function SpanOf(v: Option<Json>, st: Style): Option<string> {
    match v
    case Some(x) => if x.Arr? || x.Obj? then Some(Print(x, st)) else None
    case None => None
  }

  function BlockValue(j: Json, st: Style, textlen: nat, maxcalls: nat, c: Collected): Collected {
    var kind := OrEmpty(Decoded(FirstKey(j, "type"), TYPEBUF));
    if kind == "text" then
      match Decoded(FirstKey(j, "text"), TEXTBUF)
      case None => c
      case Some(t) => AddText(c, t, textlen)
    else if kind == "tool_use" then
      AddCall(c, ToolCall(OrEmpty(Decoded(FirstKey(j, "id"), IDLEN)), OrEmpty(Decoded(FirstKey(j, "name"), NAMELEN)),
                          InputText(SpanOf(FirstKey(j, "input"), st))), maxcalls)
    else c
  }

  function CollectValues(items: seq<Json>, st: Style, textlen: nat, maxcalls: nat, c: Collected): Collected {
    if items == [] then c
    else CollectValues(items[1..], st, textlen, maxcalls, BlockValue(items[0], st, textlen, maxcalls, c))
  }

  lemma BlockPrinted(j: Json, st: Style, textlen: nat, maxcalls: nat, c: Collected)
    requires Valid(j) && st.Valid()
    ensures Block(Print(j, st), textlen, maxcalls, c) == BlockValue(j, st, textlen, maxcalls, c)
  {
    hide Print, FirstKey, GetString, RawSpan, UnescapeWithin, CStr, Valid;
    LookupString(j, "type", st, TYPEBUF);
    LookupString(j, "text", st, TEXTBUF);
    LookupString(j, "id", st, IDLEN);
    LookupString(j, "name", st, NAMELEN);
    LookupSpan(j, "input", st);
  }

  lemma TakeAll(s: string, n: nat)
    requires |s| <= n
    ensures Take(s, n) == s
  {
  }

  lemma {:induction false} CollectFrom(items: seq<Json>, st: Style, lead: string, b: string, textlen: nat,
      maxcalls: nat, c: Collected)
    requires ValidItems(items) && AllObjects(items) && st.Valid()
    requires forall i :: 0 <= i < |items| ==> |Print(items[i], st)| < OBJBUF
    requires forall i :: 0 <= i < |lead| ==> lead[i] != '{' && lead[i] != ']'
    ensures Collect(lead + (PrintItems(items, st) + ("]" + b)), textlen, maxcalls, c)
            == CollectValues(items, st, textlen, maxcalls, c)
    decreases |items|
  {
    hide Balance, Take, Print, Block, BlockValue;
    var s := lead + (PrintItems(items, st) + ("]" + b));
    if items == [] {
      assert s == lead + ("]" + b);
      SeekOver(lead, "]" + b);
      assert NextObj(s, OBJBUF) == None;
    } else {
      var gap := if |items| == 1 then "" else "," + st.postComma;
      var rest := gap + (PrintItems(items[1..], st) + ("]" + b));
      assert s == lead + (Print(items[0], st) + rest);
      NextPrinted(items[0], st, lead, rest, OBJBUF);
      TakeAll(Print(items[0], st), OBJBUF - 1);
      BlockPrinted(items[0], st, textlen, maxcalls, c);
      CollectFrom(items[1..], st, gap, b, textlen, maxcalls, BlockValue(items[0], st, textlen, maxcalls, c));
    }
  }

  /** For every array of objects that fit the object buffer, scanning the text agrees with reading the values. */
  lemma CollectPrinted(items: seq<Json>, st: Style, b: string, textlen: nat, maxcalls: nat)
    requires ValidItems(items) && AllObjects(items) && st.Valid()
    requires forall i :: 0 <= i < |items| ==> |Print(items[i], st)| < OBJBUF
    ensures Collect(Print(Arr(items), st) + b, textlen, maxcalls, Collected("", []))
         == CollectValues(items, st, textlen, maxcalls, Collected("", []))
  {
    assert Print(Arr(items), st) + b == "[" + (PrintItems(items, st) + ("]" + b));
    CollectFrom(items, st, "[", b, textlen, maxcalls, Collected("", []));
  }

  // ---- the blocks of the API ----

  /** A content block in the API's field order; `extra` stands for any later fields. */
  datatype ApiBlock =
    | Text(raw: string, extra: seq<Member>)
    | ToolUse(id: string, name: string, input: Json, extra: seq<Member>)
    | Other(kind: string, extra: seq<Member>)      // a block of any other type
  {
    function Members(): seq<Member> {
      match this
      case Text(raw, extra) => [Member("type", Str("text")), Member("text", Str(raw))] + extra
      case ToolUse(id, name, input, extra) =>
        [Member("type", Str("tool_use")), Member("id", Str(id)), Member("name", Str(name)),
            Member("input", input)] + extra
      case Other(kind, extra) => [Member("type", Str(kind))] + extra
    }

    function Value(): Json { Obj(Members()) }

    /** Well formed, and inside every buffer of the client. */
    predicate Fits(st: Style) {
      && Valid(Value()) && |Print(Value(), st)| < OBJBUF
      && match this
         case Text(raw, _) => |Unescape(raw)| <= TEXTBUF - 4
         case ToolUse(id, name, input, _) =>
           && |Unescape(id)| <= IDLEN - 4 && |Unescape(name)| <= NAMELEN - 4
           && input.Obj? && |Print(input, st)| < INPUTBUF
         case Other(kind, _) => OtherKind(kind)
    }
  }

  /** A type the client does not know, written without escapes. */
  predicate OtherKind(kind: string) {
    PlainKey(kind) && '\0' !in kind && |kind| <= TYPEBUF - 4 && kind != "text" && kind != "tool_use"
  }

  /** The decoded texts, joined; a decoded NUL ends its own block, as for every C string. */
  function TextOf(blocks: seq<ApiBlock>): string {
    if blocks == [] then ""
    else (if blocks[0].Text? then CStr(Unescape(blocks[0].raw)) else "") + TextOf(blocks[1..])
  }

  function CallOf(b: ApiBlock, st: Style): ToolCall
    requires b.ToolUse?
  {
    ToolCall(CStr(Unescape(b.id)), CStr(Unescape(b.name)), Print(b.input, st))
  }

  function CallsOf(blocks: seq<ApiBlock>, st: Style): seq<ToolCall> {
    if blocks == [] then []
    else (if blocks[0].ToolUse? then [CallOf(blocks[0], st)] else []) + CallsOf(blocks[1..], st)
  }

  function Values(blocks: seq<ApiBlock>): seq<Json> {
    if blocks == [] then [] else [blocks[0].Value()] + Values(blocks[1..])
  }

  lemma DecodedFits(raw: string, outlen: nat)
    requires |Unescape(raw)| <= outlen - 4
    ensures Decoded(Some(Str(raw)), outlen) == Some(CStr(Unescape(raw)))
  {
    UnescapeWithinIsPrefix(raw, outlen - 4);
  }

  /** Type names decode to themselves. */
  lemma TypeName(kind: string)
    requires kind == "text" || kind == "tool_use" || OtherKind(kind)
    ensures OrEmpty(Decoded(Some(Str(kind)), TYPEBUF)) == kind
  {
    hide Unescape, CStr, UnescapeWithin, Decoded;
    assert '\\' !in kind && '\0' !in kind && |kind| <= 20;
    UnescapePlain(kind);
    CStrOfNulFree(kind);
    DecodedFits(kind, TYPEBUF);
  }

  lemma TextBlock(b: ApiBlock, st: Style, textlen: nat, maxcalls: nat, c: Collected)
    requires b.Text? && b.Fits(st)
    ensures BlockValue(b.Value(), st, textlen, maxcalls, c) == AddText(c, CStr(Unescape(b.raw)), textlen)
  {
    hide Valid, Print, Unescape, CStr, UnescapeWithin;
    var ms := b.Members();
    PlainFieldIsFirst(ms, "type", 0);
    FieldNames();
    PlainFieldIsFirst(ms, "text", 1);
    TypeName("text");
    DecodedFits(b.raw, TEXTBUF);
  }

  lemma ToolBlock(b: ApiBlock, st: Style, textlen: nat, maxcalls: nat, c: Collected)
    requires b.ToolUse? && b.Fits(st)
    ensures BlockValue(b.Value(), st, textlen, maxcalls, c) == AddCall(c, CallOf(b, st), maxcalls)
  {
    hide Valid, Print, Unescape, CStr, UnescapeWithin, Take;
    var ms := b.Members();
    ToolFields(b);
    TypeName("tool_use");
    DecodedFits(b.id, IDLEN);
    DecodedFits(b.name, NAMELEN);
    TakeAll(Print(b.input, st), INPUTBUF - 1);
  }

  /** A block of another type adds nothing, whatever its fields are called. */
  lemma OtherBlock(b: ApiBlock, st: Style, textlen: nat, maxcalls: nat, c: Collected)
    requires b.Other? && b.Fits(st)
    ensures BlockValue(b.Value(), st, textlen, maxcalls, c) == c
  {
    hide Valid, Print, Unescape, CStr, UnescapeWithin, Take;
    var ms := b.Members();
    FieldNames();
    PlainFieldIsFirst(ms, "type", 0);
    TypeName(b.kind);
  }

  /** The field names of a block are different words without quotes. */
  lemma FieldNames()
    ensures '\"' !in "type" && '\"' !in "id" && '\"' !in "name"
    ensures "type" != "text" && "type" != "id" && "type" != "name" && "type" != "input"
    ensures "id" != "name" && "id" != "input" && "name" != "input"
  {
    assert "type"[1] != "text"[1] && "type"[0] != "name"[0] && "type"[0] != "input"[0];
  }

  lemma ToolFields(b: ApiBlock)
    requires b.ToolUse?
    ensures FirstKey(b.Value(), "type") == Some(Str("tool_use")) && FirstKey(b.Value(), "id") == Some(Str(b.id))
    ensures FirstKey(b.Value(), "name") == Some(Str(b.name)) && FirstKey(b.Value(), "input") == Some(b.input)
  {
    var ms := b.Members();
    assert ms[0] == Member("type", Str("tool_use")) && ms[1] == Member("id", Str(b.id));
    assert ms[2] == Member("name", Str(b.name)) && ms[3] == Member("input", b.input);
    FieldNames();
    PlainFieldIsFirst(ms, "type", 0);
    PlainFieldIsFirst(ms, "id", 1);
    PlainFieldIsFirst(ms, "name", 2);
    PlainFieldIsFirst(ms, "input", 3);
  }

  lemma FirstCalls(c: Collected, call: ToolCall, rest: seq<ToolCall>, maxcalls: nat)
    requires |c.calls| <= maxcalls
    ensures var one, all := AddCall(c, call, maxcalls).calls + rest, c.calls + ([call] + rest);
            one[..Min(maxcalls, |one|)] == all[..Min(maxcalls, |all|)]
  {
    Assoc(c.calls, [call], rest);
  }

  /** What is left of the text when a block that does not fit is left out. */
  predicate TextKept(before: string, added: string, after: string, textlen: nat) {
    && before <= after && |after| <= |before| + |added|
    && (after == before + added <==> |before| + |added| < textlen - 1 || added == "")
  }

  lemma KeptBefore(before: string, t: string, more: string, after: string, textlen: nat)
    requires TextKept(if |before| + |t| < textlen - 1 then before + t else before, more, after, textlen)
    ensures TextKept(before, t + more, after, textlen)
  {
    if |before| + |t| < textlen - 1 { Assoc(before, t, more); } else if t == "" { assert t + more == more; }
  }

  lemma {:induction false} BlocksCollected(blocks: seq<ApiBlock>, st: Style, textlen: nat, maxcalls: nat, c: Collected)
    requires forall i :: 0 <= i < |blocks| ==> blocks[i].Fits(st)
    requires |c.calls| <= maxcalls
    ensures var all, r := c.calls + CallsOf(blocks, st), CollectValues(Values(blocks), st, textlen, maxcalls, c);
            r.calls == all[..Min(maxcalls, |all|)] && TextKept(c.text, TextOf(blocks), r.text, textlen)
  {
    hide BlockValue, CStr, Unescape, TextKept;
    if blocks == [] {
      assert c.calls + [] == c.calls;
      NothingAdded(c.text, textlen);
    } else {
      var b, more := blocks[0], blocks[1..];
      var next := BlockValue(b.Value(), st, textlen, maxcalls, c);
      var t := if b.Text? then CStr(Unescape(b.raw)) else "";
      if b.Text? {
        TextBlock(b, st, textlen, maxcalls, c);
      } else if b.ToolUse? {
        ToolBlock(b, st, textlen, maxcalls, c);
        FirstCalls(c, CallOf(b, st), CallsOf(more, st), maxcalls);
      } else {
        OtherBlock(b, st, textlen, maxcalls, c);
      }
      BlocksCollected(more, st, textlen, maxcalls, next);
      assert b.Text? || c.text + "" == c.text;
      assert b.ToolUse? || [] + CallsOf(more, st) == CallsOf(more, st);
      KeptBefore(c.text, t, TextOf(more), CollectValues(Values(more), st, textlen, maxcalls, next).text, textlen);
    }
  }

  lemma NothingAdded(text: string, textlen: nat)
    ensures TextKept(text, "", text, textlen)
  {
    assert text + "" == text;
  }

  lemma {:induction false} ValuesAreObjects(blocks: seq<ApiBlock>, st: Style)
    requires forall i :: 0 <= i < |blocks| ==> blocks[i].Fits(st)
    ensures |Values(blocks)| == |blocks| && ValidItems(Values(blocks)) && AllObjects(Values(blocks))
    ensures forall i :: 0 <= i < |blocks| ==> |Print(Values(blocks)[i], st)| < OBJBUF
  {
    if blocks != [] { ValuesAreObjects(blocks[1..], st); }
  }

  /**
   Collector correctness: the first `maxcalls` tool calls in order with id, name and the exact text of the input,
   whatever braces, quotes or key names the strings contain; and the decoded texts joined, whole exactly when together
   they leave two characters of the buffer free (or there is no text).  Blocks of other types count for nothing.
   */
  lemma CollectsBlocks(blocks: seq<ApiBlock>, st: Style, b: string, textlen: nat, maxcalls: nat)
    requires st.Valid() && forall i :: 0 <= i < |blocks| ==> blocks[i].Fits(st)
    ensures var r := Collect(Print(Arr(Values(blocks)), st) + b, textlen, maxcalls, Collected("", []));
            var calls := CallsOf(blocks, st);
            && r.calls == calls[..Min(maxcalls, |calls|)]
            && (r.text == TextOf(blocks) <==> |TextOf(blocks)| < textlen - 1 || TextOf(blocks) == "")
            && |r.text| <= |TextOf(blocks)|
  {
    hide Collect, CollectValues, Print;
    ValuesAreObjects(blocks, st);
    CollectPrinted(Values(blocks), st, b, textlen, maxcalls);
    BlocksCollected(blocks, st, textlen, maxcalls, Collected("", []));
    assert "" + TextOf(blocks) == TextOf(blocks) && [] + CallsOf(blocks, st) == CallsOf(blocks, st);
  }

  /** A text block is added whole or not at all. */
  lemma TextIsWholeOrLeft(before: seq<ApiBlock>, raw: string, extra: seq<Member>, st: Style, textlen: nat,
      maxcalls: nat)
    requires forall i :: 0 <= i < |before| ==> before[i].Fits(st)
    requires Text(raw, extra).Fits(st)
    ensures var c := CollectValues(Values(before), st, textlen, maxcalls, Collected("", []));
            var d := CollectValues(Values(before + [Text(raw, extra)]), st, textlen, maxcalls, Collected("", []));
            var t := CStr(Unescape(raw));
            d == if |c.text| + |t| < textlen - 1 then c.(text := c.text + t) else c
  {
    hide BlockValue, CStr, Unescape;
    ValuesSnoc(before, Text(raw, extra));
    CollectSnoc(Values(before), Text(raw, extra).Value(), st, textlen, maxcalls, Collected("", []));
    TextBlock(Text(raw, extra), st, textlen, maxcalls,
              CollectValues(Values(before), st, textlen, maxcalls, Collected("", [])));
  }

  lemma {:induction false} ValuesSnoc(blocks: seq<ApiBlock>, b: ApiBlock)
    ensures Values(blocks + [b]) == Values(blocks) + [b.Value()]
  {
    if blocks == [] {
      assert blocks + [b] == [b] && [b][1..] == [];
    } else {
      assert (blocks + [b])[1..] == blocks[1..] + [b];
      ValuesSnoc(blocks[1..], b);
    }
  }

  lemma {:induction false} CollectSnoc(items: seq<Json>, j: Json, st: Style, textlen: nat, maxcalls: nat, c: Collected)
    ensures CollectValues(items + [j], st, textlen, maxcalls, c)
         == BlockValue(j, st, textlen, maxcalls, CollectValues(items, st, textlen, maxcalls, c))
  {
    hide BlockValue;
    if items == [] {
      assert items + [j] == [j] && [j][1..] == [];
    } else {
      assert (items + [j])[1..] == items[1..] + [j];
      CollectSnoc(items[1..], j, st, textlen, maxcalls, BlockValue(items[0], st, textlen, maxcalls, c));
    }
  }

  // ---- the C function ----

  lemma CollectStep(p: string, textlen: nat, maxcalls: nat, c: Collected)
    ensures match NextObj(p, OBJBUF)
            case None => Collect(p, textlen, maxcalls, c) == c
            case Some(n) =>
              && |n.rest| < |p|
              && Collect(p, textlen, maxcalls, c)
                 == Collect(n.rest, textlen, maxcalls, Block(n.copy, textlen, maxcalls, c))
  {
    hide Block, Balance, SeekObject, Take;
    SeekObjectIsSuffix(p);
  }

  /** The scanned text holds no NUL, so the copied object reads back whole. */
  lemma CopyReadBack(p: string, n: Next, buf: string)
    requires NextObj(p, OBJBUF) == Some(n) && |n.copy| < |buf| && buf[..|n.copy|] == n.copy && buf[|n.copy|] == '\0'
    requires '\0' !in p
    ensures CStr(buf) == n.copy && '\0' !in n.rest
  {
    SeekObjectIsSuffix(p);
    CStrStops(buf, |n.copy|);
    CStrOfNulFree(n.copy);
  }

  /** The body of the loop: the branches on the block type. */
  method HandleBlock(obj: string, textout: array<char>, used: nat, calls: array<ToolCall>, ncalls: nat)
      returns (u: nat, n: nat)
    requires used < textout.Length && ncalls <= calls.Length
    modifies textout, calls
    ensures u < textout.Length && n <= calls.Length
    ensures Collected(textout[..u], calls[..n])
         == Block(obj, textout.Length, calls.Length, Collected(old(textout[..used]), old(calls[..ncalls])))
  {
    hide GetString, RawSpan, Take;
    u, n := used, ncalls;
    var ok, kind := ReadString(obj, "type", TYPEBUF);
    if kind == "text" {
      var found, t := ReadString(obj, "text", TEXTBUF);
      if found && used + |t| < textout.Length - 1 {
        forall k | 0 <= k < |t| { textout[used + k] := t[k]; }
        u := used + |t|;
        assert textout[..u] == old(textout[..used]) + t;
      }
    } else if kind == "tool_use" && ncalls < calls.Length {
      var ok1, id := ReadString(obj, "id", IDLEN);
      var ok2, name := ReadString(obj, "name", NAMELEN);
      var span := GetRawSpan(obj, "input");
      calls[ncalls] := ToolCall(id, name, InputText(span));
      n := ncalls + 1;
      assert calls[..n] == old(calls[..ncalls]) + [calls[ncalls]];
    }
  }

  /** `collect_text_and_tools`: fills `textout` and `calls`, and answers how much of each it used. */
  method CollectTextAndTools(content: string, textout: array<char>, calls: array<ToolCall>)
      returns (used: nat, ncalls: nat)
    requires textout.Length >= 1 && '\0' !in content
    modifies textout, calls
    ensures var c := Collect(content, textout.Length, calls.Length, Collected("", []));
            && used == |c.text| < textout.Length && textout[..used] == c.text && textout[used] == '\0'
            && ncalls == |c.calls| <= calls.Length && calls[..ncalls] == c.calls
  {
    hide Collect, NextObj, Block;
    var obj := new char[OBJBUF];
    var p := content;
    used, ncalls := 0, 0;
    textout[0] := '\0';
    ghost var target := Collect(content, textout.Length, calls.Length, Collected("", []));
    while true
      invariant used < textout.Length && ncalls <= calls.Length && '\0' !in p
      invariant Collect(p, textout.Length, calls.Length, Collected(textout[..used], calls[..ncalls])) == target
      decreases |p|
    {
      CollectStep(p, textout.Length, calls.Length, Collected(textout[..used], calls[..ncalls]));
      var next := NextObjPtr(p, obj);
      if next == None { break; }
      CopyReadBack(p, NextObj(p, OBJBUF).value, obj[..]);
      used, ncalls := HandleBlock(CStr(obj[..]), textout, used, calls, ncalls);
      p := next.value;
    }
    textout[used] := '\0';
  }
}
