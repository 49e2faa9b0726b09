/**
 The Claude proxy's translation between Anthropic turns and OpenAI chat messages.

 JSON values are an arbitrary type with a text form; all that is used of `json.dumps` and `json.loads` is that
 loading what was dumped gives the value back.  Dictionary fields that may be absent are options.
 */
module Translate {
  import opened Wrappers
  import opened CText

  /** `json.loads` (None for a ValueError), `json.dumps`, and the empty object. */
  datatype Codec<!V> = Codec(loads: string -> Option<V>, dumps: V -> string, empty: V)

  ghost predicate Faithful<V(!new)>(c: Codec<V>) { forall v: V :: c.loads(c.dumps(v)) == Some(v) }

  // ---- Anthropic turns ----

  /** An entry of a result's content list: a dictionary, or something else that is skipped. */
  datatype Part = Dict(text: Option<string>) | NotDict

  datatype ResultContent = Whole(text: string) | Parts(parts: seq<Part>)

  datatype Block<V> =
    | Text(text: Option<string>)
    | ToolUse(id: Option<string>, name: Option<string>, input: Option<V>)
    | ToolResult(callId: Option<string>, content: Option<ResultContent>)
    | OtherBlock

  datatype Content<V> = Words(text: string) | Blocks(blocks: seq<Block<V>>)

  datatype Turn<V> = Turn(role: string, content: Content<V>)

  // ---- OpenAI messages ----

  datatype OutCall = OutCall(id: string, name: string, arguments: string)

  datatype OutMessage =
    | Plain(role: string, content: string)
    | Calling(words: Option<string>, calls: seq<OutCall>)
    | ToolSays(callId: string, content: string)

  /** An OpenAI reply; an absent or null list is the empty one. */
  datatype Function = Function(name: Option<string>, arguments: Option<string>)
  datatype InCall = InCall(id: Option<string>, fn: Option<Function>)
  datatype Message = Message(content: Option<string>, calls: seq<InCall>)
  datatype Choice = Choice(message: Option<Message>, finish: Option<string>)
  datatype Reply = Reply(choices: seq<Choice>)

  datatype Answer<V> = Answer(content: seq<Block<V>>, stop: string)

  function Or<T>(o: Option<T>, d: T): T { match o case None => d case Some(x) => x }

  // ---- Anthropic to OpenAI ----

  function PartsText(parts: seq<Part>): string {
    if parts == [] then "" else (match parts[0] case Dict(t) => Or(t, "") case NotDict => "") + PartsText(parts[1..])
  }

  function ResultText(c: Option<ResultContent>): string {
    match c case None => "" case Some(Whole(t)) => t case Some(Parts(ps)) => PartsText(ps)
  }

  function OneText<V>(b: Block<V>): seq<string> { if b.Text? then [Or(b.text, "")] else [] }

  function OneCall<V>(b: Block<V>, c: Codec<V>): seq<OutCall> {
    if b.ToolUse? then [OutCall(Or(b.id, ""), Or(b.name, ""), c.dumps(Or(b.input, c.empty)))] else []
  }

  function OneResult<V>(b: Block<V>): seq<OutMessage> {
    if b.ToolResult? then [ToolSays(Or(b.callId, ""), ResultText(b.content))] else []
  }

  function Texts<V>(bs: seq<Block<V>>): seq<string> {
    if bs == [] then [] else Texts(bs[..|bs| - 1]) + OneText(bs[|bs| - 1])
  }

  function Calls<V>(bs: seq<Block<V>>, c: Codec<V>): seq<OutCall> {
    if bs == [] then [] else Calls(bs[..|bs| - 1], c) + OneCall(bs[|bs| - 1], c)
  }

  function Results<V>(bs: seq<Block<V>>): seq<OutMessage> {
    if bs == [] then [] else Results(bs[..|bs| - 1]) + OneResult(bs[|bs| - 1])
  }

  function NonEmpty(s: string): Option<string> { if s == "" then None else Some(s) }

  /** The messages of one turn: its tool results if it has any, else its calls with its text, else its text. */
  function TurnOut<V>(t: Turn<V>, c: Codec<V>): seq<OutMessage> {
    match t.content
    case Words(text) => [Plain(t.role, text)]
    case Blocks(bs) =>
      if Results(bs) != [] then Results(bs)
      else if Calls(bs, c) != [] then [Calling(NonEmpty(Join(Texts(bs), " ")), Calls(bs, c))]
      else [Plain(t.role, Join(Texts(bs), " "))]
  }

  function ToOpenAI<V>(turns: seq<Turn<V>>, c: Codec<V>): seq<OutMessage> {
    if turns == [] then [] else ToOpenAI(turns[..|turns| - 1], c) + TurnOut(turns[|turns| - 1], c)
  }

  // ---- OpenAI to Anthropic ----

  function ArgumentsOf(call: InCall): string {
    match call.fn case None => "{}" case Some(f) => Or(f.arguments, "{}")
  }

  function NameOf(call: InCall): string {
    match call.fn case None => "" case Some(f) => Or(f.name, "")
  }

  function UseBlock<V>(call: InCall, c: Codec<V>): Block<V> {
    ToolUse(Some(Or(call.id, "")), Some(NameOf(call)), Some(Or(c.loads(ArgumentsOf(call)), c.empty)))
  }

  function UseBlocks<V>(calls: seq<InCall>, c: Codec<V>): (bs: seq<Block<V>>)
    ensures |bs| == |calls|
    ensures forall i :: 0 <= i < |bs| ==> bs[i] == UseBlock(calls[i], c)
  {
    seq(|calls|, i requires 0 <= i < |calls| => UseBlock(calls[i], c))
  }

  function MessageOf(r: Reply): Message {
    if r.choices == [] then Message(None, []) else Or(r.choices[0].message, Message(None, []))
  }

  function FinishOf(r: Reply): string { if r.choices == [] then "stop" else Or(r.choices[0].finish, "stop") }

  function TextBlocks<V>(m: Message): seq<Block<V>> { if Or(m.content, "") == "" then [] else [Text(m.content)] }

  function FromOpenAI<V>(r: Reply, c: Codec<V>): Answer<V> {
    var m := MessageOf(r);
    var bs := TextBlocks(m) + UseBlocks(m.calls, c);
    Answer(if bs == [] then [Text(Some(""))] else bs,
           if m.calls != [] then "tool_use" else if FinishOf(r) == "length" then "max_tokens" else "end_turn")
  }

  // ---- the loops ----

  method JoinParts(parts: seq<Part>) returns (s: string)
    ensures s == PartsText(parts)
  {
    s := "";
    var i := 0;
    while i < |parts|
      invariant 0 <= i <= |parts| && s + PartsText(parts[i..]) == PartsText(parts)
    {
      assert parts[i..][1..] == parts[i + 1..];
      if parts[i].Dict? { s := s + Or(parts[i].text, ""); }
      i := i + 1;
    }
    assert s + "" == s;
  }

  /** `_anthropic_to_openai`, the messages. */
  method AnthropicToOpenAI<V>(turns: seq<Turn<V>>, c: Codec<V>) returns (out: seq<OutMessage>)
    ensures out == ToOpenAI(turns, c)
  {
    out := [];
    for i := 0 to |turns|
      invariant out == ToOpenAI(turns[..i], c)
    {
      var more := TranslateTurn(turns[i], c);
      assert turns[..i + 1][..i] == turns[..i];
      out := out + more;
    }
    assert turns[..|turns|] == turns;
  }

  method TranslateTurn<V>(t: Turn<V>, c: Codec<V>) returns (out: seq<OutMessage>)
    ensures out == TurnOut(t, c)
  {
    if t.content.Words? { return [Plain(t.role, t.content.text)]; }
    var bs := t.content.blocks;
    var texts, calls, results := [], [], [];
    hide Texts, Calls, Results;
    FiltersOfNone(c);
    assert bs[..0] == [];
    for i := 0 to |bs|
      invariant texts == Texts(bs[..i]) && calls == Calls(bs[..i], c) && results == Results(bs[..i])
    {
      FiltersSnoc(bs[..i], bs[i], c);
      assert bs[..i + 1] == bs[..i] + [bs[i]];
      match bs[i] {
        case Text(text) => texts := texts + [Or(text, "")];
        case ToolUse(id, name, input) =>
          calls := calls + [OutCall(Or(id, ""), Or(name, ""), c.dumps(Or(input, c.empty)))];
        case ToolResult(id, content) =>
          var s := "";
          if content.Some? {
            if content.value.Whole? { s := content.value.text; } else { s := JoinParts(content.value.parts); }
          }
          results := results + [ToolSays(Or(id, ""), s)];
        case OtherBlock =>
      }
    }
    assert bs[..|bs|] == bs;
    if results != [] {
      out := results;
    } else if calls != [] {
      out := [Calling(NonEmpty(Join(texts, " ")), calls)];
    } else {
      out := [Plain(t.role, Join(texts, " "))];
    }
  }

  /** `_openai_to_anthropic`, the content and the stop reason. */
  method OpenAIToAnthropic<V>(r: Reply, c: Codec<V>) returns (a: Answer<V>)
    ensures a == FromOpenAI(r, c)
  {
    var m := MessageOf(r);
    var blocks := [];
    if m.content.Some? && m.content.value != "" { blocks := [Text(m.content)]; }
    ghost var first: seq<Block<V>> := blocks;
    assert first == TextBlocks(m);
    for i := 0 to |m.calls|
      invariant blocks == first + UseBlocks(m.calls, c)[..i]
    {
      var call := m.calls[i];
      var args := c.loads(ArgumentsOf(call));
      var input := if args.Some? then args.value else c.empty;
      assert UseBlocks(m.calls, c)[..i + 1] == UseBlocks(m.calls, c)[..i] + [UseBlock(call, c)];
      blocks := blocks + [ToolUse(Some(Or(call.id, "")), Some(NameOf(call)), Some(input))];
    }
    assert UseBlocks(m.calls, c)[..|m.calls|] == UseBlocks(m.calls, c);
    a := Answer(if blocks == [] then [Text(Some(""))] else blocks,
                if m.calls != [] then "tool_use" else if FinishOf(r) == "length" then "max_tokens" else "end_turn");
  }

  // ---- the filters ----

  lemma {:induction false} FiltersAppend<V>(a: seq<Block<V>>, b: seq<Block<V>>, c: Codec<V>)
    ensures Texts(a + b) == Texts(a) + Texts(b) && Calls(a + b, c) == Calls(a, c) + Calls(b, c)
            && Results(a + b) == Results(a) + Results(b)
    decreases |b|
  {
    hide Texts, Calls, Results, OneText, OneCall, OneResult;
    if b == [] {
      assert a + b == a;
      FiltersOfNone(c);
    } else {
      var front, last := b[..|b| - 1], b[|b| - 1];
      assert a + b == (a + front) + [last] && b == front + [last];
      FiltersSnoc(a + front, last, c);
      FiltersSnoc(front, last, c);
      FiltersAppend(a, front, c);
    }
  }

  lemma FiltersSnoc<V>(a: seq<Block<V>>, b: Block<V>, c: Codec<V>)
    ensures Texts(a + [b]) == Texts(a) + OneText(b)
    ensures Calls(a + [b], c) == Calls(a, c) + OneCall(b, c)
    ensures Results(a + [b]) == Results(a) + OneResult(b)
  {
    hide OneText, OneCall, OneResult;
    assert (a + [b])[..|a|] == a;
  }

  lemma FiltersOfOne<V>(b: Block<V>, c: Codec<V>)
    ensures Texts([b]) == OneText(b) && Calls([b], c) == OneCall(b, c) && Results([b]) == OneResult(b)
  {
    hide OneText, OneCall, OneResult;
    assert [b][..0] == [];
  }

  /** Translating a call back and forth. */
  function BackCall<V>(call: InCall, c: Codec<V>): OutCall {
    OutCall(Or(call.id, ""), NameOf(call), c.dumps(Or(c.loads(ArgumentsOf(call)), c.empty)))
  }

  lemma {:induction false} FiltersOfUses<V>(calls: seq<InCall>, c: Codec<V>)
    ensures var bs := UseBlocks(calls, c);
            && Texts(bs) == [] && Results(bs) == []
            && |Calls(bs, c)| == |calls| && forall i :: 0 <= i < |calls| ==> Calls(bs, c)[i] == BackCall(calls[i], c)
    decreases |calls|
  {
    hide Texts, Calls, Results, UseBlocks, UseBlock, OneText, OneCall, OneResult;
    if calls == [] {
      assert UseBlocks(calls, c) == [] by { assert |UseBlocks(calls, c)| == 0; }
      FiltersOfNone(c);
    } else {
      var n := |calls| - 1;
      FiltersOfUses(calls[..n], c);
      UseBlocksSnoc(calls, c);
      FiltersAppend(UseBlocks(calls[..n], c), [UseBlock(calls[n], c)], c);
      FiltersOfOne(UseBlock(calls[n], c), c);
      FiltersOfUse(calls[n], c);
    }
  }

  lemma FiltersOfNone<V>(c: Codec<V>)
    ensures Texts<V>([]) == [] && Calls([], c) == [] && Results<V>([]) == []
  {
  }

  lemma FiltersOfUse<V>(call: InCall, c: Codec<V>)
    ensures var b := UseBlock(call, c); OneText(b) == [] && OneCall(b, c) == [BackCall(call, c)] && OneResult(b) == []
  {
  }

  lemma UseBlocksSnoc<V>(calls: seq<InCall>, c: Codec<V>)
    requires calls != []
    ensures var n := |calls| - 1; UseBlocks(calls, c) == UseBlocks(calls[..n], c) + [UseBlock(calls[n], c)]
  {
    hide UseBlock;
  }

  // ---- the tool exchange survives ----

  /** The answer to a reply, sent back as the assistant's turn. */
  function Back<V>(r: Reply, c: Codec<V>): seq<OutMessage> {
    ToOpenAI([Turn("assistant", Blocks(FromOpenAI(r, c).content))], c)
  }

  lemma BackIs<V>(r: Reply, c: Codec<V>)
    ensures var m := MessageOf(r);
            var calls := Calls(UseBlocks(m.calls, c), c);
            Back(r, c) == [if m.calls != [] then Calling(NonEmpty(Or(m.content, "")), calls)
                else Plain("assistant", Or(m.content, ""))]
  {
    hide UseBlocks, Calls, Texts, Results, Join, OneText, OneCall, OneResult;
    var m := MessageOf(r);
    var first: seq<Block<V>>, uses := TextBlocks(m), UseBlocks(m.calls, c);
    var bs := FromOpenAI(r, c).content;
    var t := Turn("assistant", Blocks(bs));
    assert [t][..0] == [] && ToOpenAI([t], c) == [] + TurnOut(t, c);
    FiltersOfUses(m.calls, c);
    FiltersAppend(first, uses, c);
    FiltersOfText(m, c);
    assert |uses| == |m.calls|;
    if first + uses != [] {
      assert bs == first + uses;
      assert Results(bs) == [] && Calls(bs, c) == Calls(uses, c);
      assert Texts(first) + [] == Texts(first);
    } else {
      assert first == [] && uses == [] && Or(m.content, "") == "";
    }
  }

  lemma FiltersOfText<V>(m: Message, c: Codec<V>)
    ensures var bs: seq<Block<V>> := TextBlocks(m);
            && Results(bs) == [] && Calls(bs, c) == [] && Join(Texts(bs), " ") == Or(m.content, "")
    ensures var none: seq<Block<V>> := [Text(Some(""))];
            Results(none) == [] && Calls(none, c) == [] && Join(Texts(none), " ") == ""
  {
    FiltersOfOne(Text(Some("")), c);
    FiltersOfOne(Text(m.content), c);
  }

  /**
   The calls of a reply come back in order with their ids and names, and the text too.  An argument text comes
   back with the same value exactly when it could be parsed; otherwise the empty object takes its place.
   */
  lemma ExchangeSurvives<V(!new)>(r: Reply, c: Codec<V>)
    requires Faithful(c)
    ensures var m := MessageOf(r);
            && |Back(r, c)| == 1
            && (m.calls == [] ==> Back(r, c)[0] == Plain("assistant", Or(m.content, "")))
            && (m.calls != [] ==>
                  && Back(r, c)[0].Calling? && Back(r, c)[0].words == NonEmpty(Or(m.content, ""))
                  && var calls := Back(r, c)[0].calls;
                     && |calls| == |m.calls|
                     && forall i :: 0 <= i < |calls| ==>
                          && calls[i].id == Or(m.calls[i].id, "") && calls[i].name == NameOf(m.calls[i])
                          && (c.loads(calls[i].arguments) == c.loads(ArgumentsOf(m.calls[i]))
                              <==> c.loads(ArgumentsOf(m.calls[i])).Some?))
  {
    hide Back, Calls, UseBlocks;
    BackIs(r, c);
    FiltersOfUses(MessageOf(r).calls, c);
  }

  function Asked(c: OutCall): InCall { InCall(Some(c.id), Some(Function(Some(c.name), Some(c.arguments)))) }

  /** A translated assistant message read as a reply again. */
  function AsReply(m: OutMessage): Reply {
    var msg := match m
      case Plain(_, text) => Message(Some(text), [])
      case Calling(text, calls) =>
        Message(text, seq(|calls|, i requires 0 <= i < |calls| => Asked(calls[i])))
      case ToolSays(_, text) => Message(Some(text), []);
    Reply([Choice(Some(msg), None)])
  }

  /** Every answer, whatever the reply looked like, is a fixed point of there and back. */
  lemma AnswerIsFixed<V(!new)>(r: Reply, c: Codec<V>)
    requires Faithful(c)
    ensures |Back(r, c)| == 1 && FromOpenAI(AsReply(Back(r, c)[0]), c).content == FromOpenAI(r, c).content
  {
    hide Back, Calls;
    BackIs(r, c);
    var m := MessageOf(r);
    FiltersOfUses(m.calls, c);
    var again := MessageOf(AsReply(Back(r, c)[0]));
    assert TextBlocks<V>(again) == TextBlocks(m);
    assert UseBlocks(again.calls, c) == UseBlocks(m.calls, c);
  }

  /** The stop reason announces exactly the tool blocks. */
  lemma StopMeansTools<V>(r: Reply, c: Codec<V>)
    ensures var a := FromOpenAI(r, c);
            && (a.stop == "tool_use" <==> exists i :: 0 <= i < |a.content| && a.content[i].ToolUse?)
            && (a.stop == "max_tokens" <==> MessageOf(r).calls == [] && FinishOf(r) == "length")
            && a.content != []
  {
    var a, m := FromOpenAI(r, c), MessageOf(r);
    var first: seq<Block<V>>, uses := TextBlocks(m), UseBlocks(m.calls, c);
    assert "tool_use" != "max_tokens" && "tool_use" != "end_turn" && "max_tokens" != "end_turn";
    if m.calls != [] {
      assert a.content[|first|] == uses[0];
    }
  }

  // ---- conversations ----

  /** The call ids and texts of the tool results, in order. */
  function ResultPairs<V>(bs: seq<Block<V>>): seq<(string, string)> {
    if bs == [] then []
    else
      var b := bs[|bs| - 1];
      ResultPairs(bs[..|bs| - 1]) + (if b.ToolResult? then [(Or(b.callId, ""), ResultText(b.content))] else [])
  }

  function AllResultPairs<V>(turns: seq<Turn<V>>): seq<(string, string)> {
    if turns == [] then []
    else
      var t := turns[|turns| - 1];
      AllResultPairs(turns[..|turns| - 1]) + (if t.content.Blocks? then ResultPairs(t.content.blocks) else [])
  }

  /** The call ids and contents of the role=tool messages, in order. */
  function ToolPairs(out: seq<OutMessage>): seq<(string, string)> {
    if out == [] then []
    else
      var m := out[|out| - 1];
      ToolPairs(out[..|out| - 1]) + (if m.ToolSays? then [(m.callId, m.content)] else [])
  }

  lemma {:induction false} ToolPairsAppend(a: seq<OutMessage>, b: seq<OutMessage>)
    ensures ToolPairs(a + b) == ToolPairs(a) + ToolPairs(b)
    decreases |b|
  {
    if b == [] {
      assert a + b == a;
    } else {
      assert (a + b)[..|a + b| - 1] == a + b[..|b| - 1];
      ToolPairsAppend(a, b[..|b| - 1]);
    }
  }

  lemma {:induction false} ResultsKeepPairs<V>(bs: seq<Block<V>>)
    ensures ToolPairs(Results(bs)) == ResultPairs(bs) && |Results(bs)| == |ResultPairs(bs)|
  {
    hide ToolPairs;
    if bs == [] {
      NoToolPairs();
    } else {
      ResultsKeepPairs(bs[..|bs| - 1]);
      var one := OneResult(bs[|bs| - 1]);
      ToolPairsAppend(Results(bs[..|bs| - 1]), one);
      NoToolPairs();
      if one != [] { OneToolPair(one[0]); }
    }
  }

  lemma NoToolPairs()
    ensures ToolPairs([]) == []
  {
  }

  lemma OneToolPair(m: OutMessage)
    ensures ToolPairs([m]) == if m.ToolSays? then [(m.callId, m.content)] else []
  {
    assert [m][..0] == [];
  }

  /**
   Every tool_result of a conversation becomes exactly one tool message with its id and text, in order, and nothing
   else does.
   */
  lemma {:induction false} EachResultOnce<V>(turns: seq<Turn<V>>, c: Codec<V>)
    ensures ToolPairs(ToOpenAI(turns, c)) == AllResultPairs(turns)
  {
    hide ToolPairs, Results, ResultPairs, Calls;
    if turns == [] {
      NoToolPairs();
    } else {
      var t := turns[|turns| - 1];
      EachResultOnce(turns[..|turns| - 1], c);
      ToolPairsAppend(ToOpenAI(turns[..|turns| - 1], c), TurnOut(t, c));
      if t.content.Blocks? { ResultsKeepPairs(t.content.blocks); }
      if t.content.Words? || Results(t.content.blocks) == [] { OneToolPair(TurnOut(t, c)[0]); }
    }
  }

  /** The calls and the words that messages carry. */
  function CallsIn(out: seq<OutMessage>): seq<OutCall> {
    if out == [] then [] else (match out[0] case Calling(_, calls) => calls case _ => []) + CallsIn(out[1..])
  }

  function WordsIn(out: seq<OutMessage>): string {
    if out == [] then ""
    else (match out[0]
          case Plain(_, text) => text
          case Calling(text, _) => Or(text, "")
          case ToolSays(_, _) => "") + WordsIn(out[1..])
  }

  predicate AllToolSays(out: seq<OutMessage>) { forall i :: 0 <= i < |out| ==> out[i].ToolSays? }

  lemma {:induction false} ResultsAreToolSays<V>(bs: seq<Block<V>>)
    ensures AllToolSays(Results(bs))
  {
    if bs != [] { ResultsAreToolSays(bs[..|bs| - 1]); }
  }

  lemma {:induction false} ToolSaysAlone(out: seq<OutMessage>)
    requires AllToolSays(out)
    ensures CallsIn(out) == [] && WordsIn(out) == ""
  {
    if out != [] { ToolSaysAlone(out[1..]); }
  }

  lemma OneMessage(m: OutMessage)
    ensures CallsIn([m]) == (match m case Calling(_, calls) => calls case _ => [])
    ensures WordsIn([m]) == match m case Plain(_, text) => text case Calling(text, _) => Or(text, "") case _ => ""
  {
    assert [m][1..] == [];
  }

  /** The text of a turn, as its blocks are joined. */
  function TurnText<V>(bs: seq<Block<V>>): string { Join(Texts(bs), " ") }

  /**
   What a turn keeps: its results always; its calls exactly when it has no results or no calls; its text exactly
   when it has no results or no text.
   */
  lemma TurnKeeps<V>(role: string, bs: seq<Block<V>>, c: Codec<V>)
    ensures var out := TurnOut(Turn(role, Blocks(bs)), c);
            && (CallsIn(out) == Calls(bs, c) <==> Results(bs) == [] || Calls(bs, c) == [])
            && (WordsIn(out) == TurnText(bs) <==> Results(bs) == [] || TurnText(bs) == "")
            && ToolPairs(out) == ResultPairs(bs)
  {
    hide Results, Calls, Texts, Join, CallsIn, WordsIn, ToolPairs, ResultPairs;
    ResultsAreToolSays(bs);
    ToolSaysAlone(Results(bs));
    ResultsKeepPairs(bs);
    var out := TurnOut(Turn(role, Blocks(bs)), c);
    if Results(bs) == [] {
      OneMessage(out[0]);
      OneToolPair(out[0]);
      NoToolPairs();
    }
  }

  /** A turn with tool results is those results alone, whatever stands beside them. */
  lemma ResultsAlone<V>(role: string, bs: seq<Block<V>>, others: seq<Block<V>>, c: Codec<V>)
    requires Results(bs) != [] && Results(others) == []
    ensures TurnOut(Turn(role, Blocks(bs + others)), c) == TurnOut(Turn(role, Blocks(bs)), c) == Results(bs)
  {
    FiltersAppend(bs, others, c);
  }

  // ---- turns and replies, field by field ----

  /** Turns of plain words go through one by one, each with its role and text. */
  lemma {:induction false} PlainTurns<V>(turns: seq<Turn<V>>, c: Codec<V>)
    requires forall i :: 0 <= i < |turns| ==> turns[i].content.Words?
    ensures var out := ToOpenAI(turns, c);
            |out| == |turns| && forall i :: 0 <= i < |out| ==> out[i] == Plain(turns[i].role, turns[i].content.text)
  {
    if turns != [] { PlainTurns(turns[..|turns| - 1], c); }
  }

  function TextsOf<V>(ts: seq<string>): seq<Block<V>> {
    seq(|ts|, i requires 0 <= i < |ts| => Text(Some(ts[i])))
  }

  function UsesOf<V>(ids: seq<string>, names: seq<string>, inputs: seq<V>): seq<Block<V>>
    requires |ids| == |names| == |inputs|
  {
    seq(|ids|, i requires 0 <= i < |ids| => ToolUse(Some(ids[i]), Some(names[i]), Some(inputs[i])))
  }

  function ResultsOf<V>(ids: seq<string>, texts: seq<string>): seq<Block<V>>
    requires |ids| == |texts|
  {
    seq(|ids|, i requires 0 <= i < |ids| => ToolResult(Some(ids[i]), Some(Whole(texts[i]))))
  }

  function CallsOf<V>(ids: seq<string>, names: seq<string>, inputs: seq<V>, c: Codec<V>): seq<OutCall>
    requires |ids| == |names| == |inputs|
  {
    seq(|ids|, i requires 0 <= i < |ids| => OutCall(ids[i], names[i], c.dumps(inputs[i])))
  }

  lemma {:induction false} TextFilters<V>(ts: seq<string>, c: Codec<V>)
    ensures var bs: seq<Block<V>> := TextsOf(ts); Texts(bs) == ts && Calls(bs, c) == [] && Results(bs) == []
  {
    hide Texts, Calls, Results;
    FiltersOfNone(c);
    if ts == [] {
      assert TextsOf<V>(ts) == [];
    } else {
      var n := |ts| - 1;
      TextFilters(ts[..n], c);
      FiltersSnoc(TextsOf(ts[..n]), Text(Some(ts[n])), c);
      assert TextsOf<V>(ts) == TextsOf(ts[..n]) + [Text(Some(ts[n]))] && ts == ts[..n] + [ts[n]];
    }
  }

  lemma {:induction false} UseFilters<V>(ids: seq<string>, names: seq<string>, inputs: seq<V>, c: Codec<V>)
    requires |ids| == |names| == |inputs|
    ensures var bs := UsesOf(ids, names, inputs);
            Texts(bs) == [] && Calls(bs, c) == CallsOf(ids, names, inputs, c) && Results(bs) == []
    decreases |ids|
  {
    hide Texts, Calls, Results;
    FiltersOfNone(c);
    if ids == [] {
      assert UsesOf(ids, names, inputs) == [] && CallsOf(ids, names, inputs, c) == [];
    } else {
      var n := |ids| - 1;
      var last := ToolUse(Some(ids[n]), Some(names[n]), Some(inputs[n]));
      UseFilters(ids[..n], names[..n], inputs[..n], c);
      FiltersSnoc(UsesOf(ids[..n], names[..n], inputs[..n]), last, c);
      assert UsesOf(ids, names, inputs) == UsesOf(ids[..n], names[..n], inputs[..n]) + [last];
      assert CallsOf(ids, names, inputs, c)
          == CallsOf(ids[..n], names[..n], inputs[..n], c) + [OutCall(ids[n], names[n], c.dumps(inputs[n]))];
    }
  }

  /** Text blocks become one message of the turn's own role, with blanks between the texts. */
  lemma TextTurn<V>(role: string, ts: seq<string>, c: Codec<V>)
    ensures TurnOut(Turn(role, Blocks(TextsOf(ts))), c) == [Plain(role, Join(ts, " "))]
  {
    hide Texts, Calls, Results, Join, TextsOf;
    TextFilters(ts, c);
  }

  /** Texts and tool calls become one assistant message: the texts, if any, and each call with id, name and input. */
  lemma CallTurn<V>(role: string, ts: seq<string>, ids: seq<string>, names: seq<string>, inputs: seq<V>, c: Codec<V>)
    requires |ids| == |names| == |inputs| && ids != []
    ensures TurnOut(Turn(role, Blocks(TextsOf(ts) + UsesOf(ids, names, inputs))), c)
         == [Calling(if Join(ts, " ") == "" then None else Some(Join(ts, " ")), CallsOf(ids, names, inputs, c))]
  {
    hide Texts, Calls, Results, Join, TextsOf, UsesOf;
    TextFilters(ts, c);
    UseFilters(ids, names, inputs, c);
    FiltersAppend(TextsOf(ts), UsesOf(ids, names, inputs), c);
    assert ts + [] == ts && [] + CallsOf(ids, names, inputs, c) == CallsOf(ids, names, inputs, c);
  }

  /** Tool results become one message each, with the id of the call and the text. */
  lemma {:induction false} ResultTurn<V>(role: string, ids: seq<string>, texts: seq<string>, c: Codec<V>)
    requires |ids| == |texts| && ids != []
    ensures var out := TurnOut(Turn(role, Blocks(ResultsOf(ids, texts))), c);
            |out| == |ids| && forall i :: 0 <= i < |ids| ==> out[i] == ToolSays(ids[i], texts[i])
  {
    hide Texts, Calls, Results;
    ResultFilters(ids, texts, c);
  }

  lemma {:induction false} ResultFilters<V>(ids: seq<string>, texts: seq<string>, c: Codec<V>)
    requires |ids| == |texts|
    ensures var rs := Results<V>(ResultsOf(ids, texts));
            |rs| == |ids| && forall i :: 0 <= i < |ids| ==> rs[i] == ToolSays(ids[i], texts[i])
  {
    hide Texts, Calls, Results;
    FiltersOfNone(c);
    if ids == [] {
      assert ResultsOf<V>(ids, texts) == [];
    } else {
      var n := |ids| - 1;
      ResultFilters(ids[..n], texts[..n], c);
      var last := ToolResult(Some(ids[n]), Some(Whole(texts[n])));
      FiltersSnoc(ResultsOf(ids[..n], texts[..n]), last, c);
      assert ResultsOf<V>(ids, texts) == ResultsOf(ids[..n], texts[..n]) + [last];
    }
  }

  /** A result given in parts is the texts of its dictionaries, one after the other. */
  lemma PartsAreJoined(t: string, parts: seq<Part>)
    ensures ResultText(None) == "" && ResultText(Some(Parts([]))) == ""
    ensures ResultText(Some(Parts([Dict(Some(t))] + parts))) == t + ResultText(Some(Parts(parts)))
    ensures ResultText(Some(Parts([Dict(None)] + parts))) == ResultText(Some(Parts(parts)))
    ensures ResultText(Some(Parts([NotDict] + parts))) == ResultText(Some(Parts(parts)))
  {
    var a, b, d := [Dict(Some(t))] + parts, [Dict(None)] + parts, [NotDict] + parts;
    assert a[1..] == parts && b[1..] == parts && d[1..] == parts;
  }

  /** Fields that are absent count as empty texts and the empty input; other blocks are passed over. */
  lemma AbsentFields<V>(bs: seq<Block<V>>, c: Codec<V>)
    ensures Texts(bs + [Text(None)]) == Texts(bs) + [""]
    ensures Calls(bs + [ToolUse(None, None, None)], c) == Calls(bs, c) + [OutCall("", "", c.dumps(c.empty))]
    ensures Results(bs + [ToolResult(None, None)]) == Results(bs) + [ToolSays("", "")]
    ensures Texts(bs + [OtherBlock]) == Texts(bs) && Calls(bs + [OtherBlock], c) == Calls(bs, c)
            && Results(bs + [OtherBlock]) == Results(bs)
  {
    hide Texts, Calls, Results;
    FiltersSnoc(bs, Text(None), c);
    FiltersSnoc(bs, ToolUse(None, None, None), c);
    FiltersSnoc(bs, ToolResult(None, None), c);
    FiltersSnoc(bs, OtherBlock, c);
  }

  /** The answer to a reply: its text first, if any, then each call with its id, name and parsed arguments. */
  lemma AnswerIsReply<V>(m: Message, finish: Option<string>, more: seq<Choice>, c: Codec<V>)
    ensures var a := FromOpenAI(Reply([Choice(Some(m), finish)] + more), c);
            var k := if m.content.Some? && m.content.value != "" then 1 else 0;
            && |a.content| == (if k == 0 && m.calls == [] then 1 else k + |m.calls|)
            && (k == 1 ==> a.content[0] == Text(m.content))
            && (k == 0 && m.calls == [] ==> a.content[0] == Text(Some("")))
            && (forall i :: 0 <= i < |m.calls| ==> IsUse(a.content[k + i], m.calls[i], c))
            && a.stop == (if m.calls != [] then "tool_use" else if finish == Some("length") then "max_tokens"
                          else "end_turn")
  {
    AnswerParts(m, finish, more, c);
    var uses := UseBlocks(m.calls, c);
    forall i | 0 <= i < |uses| ensures IsUse(uses[i], m.calls[i], c) { UseIs(m.calls[i], c); }
    hide UseBlock, IsUse, FromOpenAI, UseBlocks;
  }

  lemma AnswerParts<V>(m: Message, finish: Option<string>, more: seq<Choice>, c: Codec<V>)
    ensures var a, bs := FromOpenAI(Reply([Choice(Some(m), finish)] + more), c), UseBlocks(m.calls, c);
            && a.content == (if m.content.Some? && m.content.value != "" then [Text(m.content)] + bs
                             else if m.calls == [] then [Text(Some(""))] else bs)
            && a.stop == (if m.calls != [] then "tool_use" else if finish == Some("length") then "max_tokens"
                          else "end_turn")
  {
    FirstChoice(m, finish, more);
    hide UseBlock, MessageOf, FinishOf;
    var bs := UseBlocks(m.calls, c);
    assert |bs| == |m.calls| && [] + bs == bs;
  }

  lemma FirstChoice(m: Message, finish: Option<string>, more: seq<Choice>)
    ensures var r := Reply([Choice(Some(m), finish)] + more);
            MessageOf(r) == m && (FinishOf(r) == "length" <==> finish == Some("length"))
  {
    assert "stop"[0] != "length"[0];
  }

  lemma UseIs<V>(call: InCall, c: Codec<V>)
    ensures IsUse(UseBlock(call, c), call, c)
  {
  }

  /** A tool block for a call: absent id and name are empty, arguments that do not parse are the empty input. */
  predicate IsUse<V(==)>(b: Block<V>, call: InCall, c: Codec<V>) {
    && b.ToolUse? && b.id.Some? && b.name.Some? && b.input.Some?
    && b.id.value == (if call.id.Some? then call.id.value else "")
    && b.name.value == (if call.fn.Some? && call.fn.value.name.Some? then call.fn.value.name.value else "")
    && var text := if call.fn.Some? && call.fn.value.arguments.Some? then call.fn.value.arguments.value else "{}";
       b.input.value == if c.loads(text).Some? then c.loads(text).value else c.empty
  }

  /** A reply without a choice, or with one that holds no message, is one empty text. */
  lemma EmptyReply<V>(finish: Option<string>, more: seq<Choice>, c: Codec<V>)
    ensures FromOpenAI(Reply([]), c) == Answer([Text(Some(""))], "end_turn")
    ensures FromOpenAI(Reply([Choice(None, finish)] + more), c)
         == Answer([Text(Some(""))], if finish == Some("length") then "max_tokens" else "end_turn")
  {
    assert "stop"[0] != "length"[0];
    assert |UseBlocks([], c)| == 0;
  }
}
