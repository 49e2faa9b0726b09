/**
 JSON values, a printer for them (RFC 8259, compact or with white space after separators and around colons),
 and what the scanners of `JsonScan` find in printed values.

 String bodies are kept as written between the quotes, so every producer's choice of escapes is covered.
 */
module JsonValue {
  import opened Wrappers
  import opened Bytes
  import opened CText
  import opened JsonText
  import opened JsonScan

  datatype Json =
    | Lit(text: string)          // a number, true, false or null
    | Str(raw: string)
    | Arr(items: seq<Json>)
    | Obj(members: seq<Member>)

  datatype Member = Member(key: string, value: Json)

  predicate LitChar(c: char) {
    '0' <= c <= '9' || 'a' <= c <= 'z' || 'A' <= c <= 'Z' || c == '+' || c == '-' || c == '.'
  }

  /** No quote and no backslash, as every key these programs look for. */
  predicate PlainKey(key: string) { '\"' !in key && '\\' !in key }

  predicate Valid(j: Json)
    decreases j, 1
  {
    match j
    case Lit(text) => text != "" && forall i :: 0 <= i < |text| ==> LitChar(text[i])
    case Str(raw) => ValidBody(raw)
    case Arr(items) => ValidItems(items)
    case Obj(members) => ValidMembers(members)
  }

  predicate ValidItems(items: seq<Json>)
    decreases items, 0
  {
    items == [] || (Valid(items[0]) && ValidItems(items[1..]))
  }

  predicate ValidMembers(ms: seq<Member>)
    decreases ms, 0
  {
    ms == [] || (ValidBody(ms[0].key) && Valid(ms[0].value) && ValidMembers(ms[1..]))
  }

  // ---- printing ----

  /** The white space a producer puts before and after colons and after commas. */
  datatype Style = Style(preColon: string, postColon: string, postComma: string) {
    predicate Valid() { AllSpace(preColon) && AllSpace(postColon) && AllSpace(postComma) }
  }

  const COMPACT := Style("", "", "")

  function Print(j: Json, st: Style): string
    decreases j, 1
  {
    match j
    case Lit(text) => text
    case Str(raw) => Quoted(raw)
    case Arr(items) => "[" + PrintItems(items, st) + "]"
    case Obj(members) => "{" + PrintMembers(members, st) + "}"
  }

  function PrintItems(items: seq<Json>, st: Style): string
    decreases items, 0
  {
    if items == [] then ""
    else Print(items[0], st) + (if |items| == 1 then "" else "," + st.postComma + PrintItems(items[1..], st))
  }

  /** A key with the colon after it. */
  function KeyPart(key: string, st: Style): string {
    Quoted(key) + (st.preColon + ":" + st.postColon)
  }

  function PrintMembers(ms: seq<Member>, st: Style): string
    decreases ms, 1
  {
    if ms == [] then ""
    else KeyPart(ms[0].key, st) + Print(ms[0].value, st) + MoreMembers(ms, st)
  }

  function MoreMembers(ms: seq<Member>, st: Style): string
    requires ms != []
    decreases ms, 0
  {
    if |ms| == 1 then "" else "," + st.postComma + PrintMembers(ms[1..], st)
  }

  lemma PrintOne(m: Member, st: Style)
    ensures PrintMembers([m], st) == KeyPart(m.key, st) + Print(m.value, st)
  {
    assert PrintMembers([m], st) == KeyPart(m.key, st) + Print(m.value, st) + "";
  }

  lemma PrintMore(m: Member, ms: seq<Member>)
    requires ms != []
    ensures PrintMembers([m] + ms, COMPACT)
            == KeyPart(m.key, COMPACT) + (Print(m.value, COMPACT) + ("," + PrintMembers(ms, COMPACT)))
  {
    assert ([m] + ms)[1..] == ms;
    hide KeyPart, Print;
    assert MoreMembers([m] + ms, COMPACT) == "," + PrintMembers(ms, COMPACT);
    Assoc(KeyPart(m.key, COMPACT), Print(m.value, COMPACT), MoreMembers([m] + ms, COMPACT));
  }

  // ---- balanced spans ----

  predicate Pair(open: char, close: char) { (open == '[' && close == ']') || (open == '{' && close == '}') }

  lemma AfterAfter(a: nat, b: nat, o: Option<nat>)
    ensures After(a, After(b, o)) == After(a + b, o)
  {
  }

  lemma {:induction false} BalancePlain(t: string, b: string, open: char, close: char, depth: int)
    requires forall i :: 0 <= i < |t| ==> t[i] != '\"' && t[i] != open && t[i] != close
    ensures Balance(t + b, open, close, depth, false) == After(|t|, Balance(b, open, close, depth, false))
  {
    hide Balance;
    if t == "" {
      assert t + b == b;
    } else {
      BalanceStep(t + b, open, close, depth, false);
      assert (t + b)[1..] == t[1..] + b;
      BalancePlain(t[1..], b, open, close, depth);
    }
  }

  lemma {:induction false} BalanceBody(raw: string, b: string, open: char, close: char, depth: int)
    requires ValidBody(raw)
    ensures Balance(raw + ("\"" + b), open, close, depth, true)
            == After(|raw| + 1, Balance(b, open, close, depth, false))
  {
    hide Balance;
    var s := raw + ("\"" + b);
    BalanceStep(s, open, close, depth, true);
    if raw == "" {
      assert s[1..] == b;
    } else if raw[0] == '\\' {
      assert s[2..] == raw[2..] + ("\"" + b);
      BalanceBody(raw[2..], b, open, close, depth);
    } else {
      assert s[1..] == raw[1..] + ("\"" + b);
      BalanceBody(raw[1..], b, open, close, depth);
    }
  }

  lemma BalanceQuoted(raw: string, b: string, open: char, close: char, depth: int)
    requires ValidBody(raw)
    ensures Balance(Quoted(raw) + b, open, close, depth, false)
            == After(|raw| + 2, Balance(b, open, close, depth, false))
  {
    hide Balance;
    var s := Quoted(raw) + b;
    BalanceStep(s, open, close, depth, false);
    assert s[1..] == raw + ("\"" + b);
    BalanceBody(raw, b, open, close, depth);
  }

  lemma {:induction false} PlainKeyIsBody(key: string)
    requires PlainKey(key)
    ensures ValidBody(key)
  {
    if key != "" { PlainKeyIsBody(key[1..]); }
  }

  /** The depth inside a bracket, as a scan for `open` counts it. */
  function Inner(l: char, open: char, depth: int): int { if l == open then depth + 1 else depth }

  lemma BalanceOpen(l: char, r: char, t: string, open: char, close: char, depth: int)
    requires Pair(open, close) && Pair(l, r)
    ensures Balance([l] + t, open, close, depth, false)
            == After(1, Balance(t, open, close, Inner(l, open, depth), false))
  {
    BalanceStep([l] + t, open, close, depth, false);
    assert ([l] + t)[1..] == t;
  }

  lemma BalanceClose(l: char, r: char, b: string, open: char, close: char, depth: int)
    requires Pair(open, close) && Pair(l, r)
    ensures Balance([r] + b, open, close, Inner(l, open, depth), false)
         == if l == open && depth == 0 then Some(1) else After(1, Balance(b, open, close, depth, false))
  {
    BalanceStep([r] + b, open, close, Inner(l, open, depth), false);
    assert ([r] + b)[1..] == b;
  }

  lemma BalanceBracketed(t: string, n: nat, l: char, r: char, b: string, open: char, close: char, depth: int)
    requires Pair(open, close) && Pair(l, r) && (depth >= 1 || (depth == 0 && l == open))
    requires Balance(t, open, close, Inner(l, open, depth), false)
          == After(n, Balance([r] + b, open, close, Inner(l, open, depth), false))
    ensures Balance([l] + t, open, close, depth, false)
         == if depth == 0 then Some(n + 2) else After(n + 2, Balance(b, open, close, depth, false))
  {
    hide Balance, After, Inner;
    BalanceOpen(l, r, t, open, close, depth);
    BalanceClose(l, r, b, open, close, depth);
    AfterAfter(1, n, Balance([r] + b, open, close, Inner(l, open, depth), false));
    AfterAfter(1 + n, 1, Balance(b, open, close, depth, false));
    AfterSome(1 + n, 1);
  }

  lemma AfterSome(a: nat, b: nat)
    ensures After(a, Some(b)) == Some(a + b)
  {
  }

  lemma PrintedText(j: Json, st: Style, b: string)
    ensures match j
            case Lit(text) => Print(j, st) == text
            case Str(raw) => Print(j, st) == Quoted(raw)
            case Arr(items) =>
              && Print(j, st) + b == "[" + (PrintItems(items, st) + ("]" + b))
              && |Print(j, st)| == |PrintItems(items, st)| + 2
            case Obj(ms) =>
              && Print(j, st) + b == "{" + (PrintMembers(ms, st) + ("}" + b))
              && |Print(j, st)| == |PrintMembers(ms, st)| + 2
  {
  }

  /** A printed value leaves the depth as it found it, whatever its strings contain. */
  lemma {:induction false} BalanceValue(j: Json, st: Style, b: string, open: char, close: char, depth: int)
    requires Valid(j) && st.Valid() && Pair(open, close) && depth >= 1
    ensures Balance(Print(j, st) + b, open, close, depth, false)
            == After(|Print(j, st)|, Balance(b, open, close, depth, false))
    decreases j, 1
  {
    hide Balance, Print, PrintItems, PrintMembers, Quoted, After;
    PrintedText(j, st, b);
    match j {
      case Lit(text) => BalancePlain(text, b, open, close, depth);
      case Str(raw) => BalanceQuoted(raw, b, open, close, depth);
      case Arr(items) =>
        BalanceItems(items, st, "]" + b, open, close, Inner('[', open, depth));
        BalanceBracketed(PrintItems(items, st) + ("]" + b), |PrintItems(items, st)|, '[', ']', b, open, close, depth);
      case Obj(ms) =>
        BalanceMembers(ms, st, "}" + b, open, close, Inner('{', open, depth));
        BalanceBracketed(PrintMembers(ms, st) + ("}" + b), |PrintMembers(ms, st)|, '{', '}', b, open, close, depth);
    }
  }

  lemma BalanceGap(ws: string, b: string, open: char, close: char, depth: int)
    requires Pair(open, close) && AllSpace(ws)
    ensures Balance("," + ws + b, open, close, depth, false) == After(|ws| + 1, Balance(b, open, close, depth, false))
  {
    BalancePlain("," + ws, b, open, close, depth);
  }

  lemma {:induction false} BalanceItems(items: seq<Json>, st: Style, b: string, open: char, close: char, depth: int)
    requires ValidItems(items) && st.Valid() && Pair(open, close) && depth >= 1
    ensures Balance(PrintItems(items, st) + b, open, close, depth, false)
         == After(|PrintItems(items, st)|, Balance(b, open, close, depth, false))
    decreases items, 0
  {
    hide Balance, Print;
    if items == [] {
      assert PrintItems(items, st) + b == b;
    } else {
      var head := Print(items[0], st);
      if |items| == 1 {
        BalanceValue(items[0], st, b, open, close, depth);
        assert PrintItems(items, st) + b == head + b;
      } else {
        var tail := PrintItems(items[1..], st) + b;
        assert PrintItems(items, st) + b == head + ("," + st.postComma + tail);
        BalanceValue(items[0], st, "," + st.postComma + tail, open, close, depth);
        BalanceGap(st.postComma, tail, open, close, depth);
        BalanceItems(items[1..], st, b, open, close, depth);
      }
    }
  }

  lemma BalanceKeyPart(key: string, st: Style, b: string, open: char, close: char, depth: int)
    requires ValidBody(key) && st.Valid() && Pair(open, close)
    ensures Balance(KeyPart(key, st) + b, open, close, depth, false)
         == After(|KeyPart(key, st)|, Balance(b, open, close, depth, false))
  {
    hide Balance, Quoted;
    var colon := st.preColon + ":" + st.postColon;
    Assoc(Quoted(key), colon, b);
    BalanceQuoted(key, colon + b, open, close, depth);
    BalancePlain(colon, b, open, close, depth);
  }

  lemma {:induction false} BalanceMembers(ms: seq<Member>, st: Style, b: string, open: char, close: char, depth: int)
    requires ValidMembers(ms) && st.Valid() && Pair(open, close) && depth >= 1
    ensures Balance(PrintMembers(ms, st) + b, open, close, depth, false)
         == After(|PrintMembers(ms, st)|, Balance(b, open, close, depth, false))
    decreases ms, 0
  {
    hide Balance, Print, KeyPart;
    if ms == [] {
      assert PrintMembers(ms, st) + b == b;
    } else {
      var key, value, more := KeyPart(ms[0].key, st), Print(ms[0].value, st), MoreMembers(ms, st);
      assert PrintMembers(ms, st) + b == key + (value + (more + b));
      BalanceKeyPart(ms[0].key, st, value + (more + b), open, close, depth);
      BalanceValue(ms[0].value, st, more + b, open, close, depth);
      if |ms| == 1 {
        assert more + b == b;
      } else {
        var tail := PrintMembers(ms[1..], st) + b;
        assert more + b == "," + st.postComma + tail;
        BalanceGap(st.postComma, tail, open, close, depth);
        BalanceMembers(ms[1..], st, b, open, close, depth);
      }
    }
  }

  /** The span scan on a printed array or object stops exactly at its end. */
  lemma BalanceWhole(j: Json, st: Style, b: string)
    requires Valid(j) && st.Valid() && (j.Arr? || j.Obj?)
    ensures var open := if j.Arr? then '[' else '{';
            var close := if j.Arr? then ']' else '}';
            Balance(Print(j, st) + b, open, close, 0, false) == Some(|Print(j, st)|)
  {
    hide Balance, Print, PrintItems, PrintMembers, After;
    PrintedText(j, st, b);
    match j {
      case Arr(items) =>
        BalanceItems(items, st, "]" + b, '[', ']', 1);
        BalanceBracketed(PrintItems(items, st) + ("]" + b), |PrintItems(items, st)|, '[', ']', b, '[', ']', 0);
      case Obj(ms) =>
        BalanceMembers(ms, st, "}" + b, '{', '}', 1);
        BalanceBracketed(PrintMembers(ms, st) + ("}" + b), |PrintMembers(ms, st)|, '{', '}', b, '{', '}', 0);
    }
  }

  // ---- walking an array of objects ----

  predicate AllObjects(items: seq<Json>) { forall i :: 0 <= i < |items| ==> items[i].Obj? }

  /** Every copy the next-object scan hands out until it answers NULL. */
  function WalkAll(p: string, outlen: nat): seq<string>
    requires outlen >= 1
    decreases |p|
  {
    match NextObj(p, outlen)
    case None => []
    case Some(n) =>
      SeekObjectIsSuffix(p);
      [n.copy] + WalkAll(n.rest, outlen)
  }

  /** The printed objects, each cut to what the buffer holds. */
  function Copies(items: seq<Json>, st: Style, outlen: nat): seq<string>
    requires outlen >= 1
  {
    if items == [] then [] else [Take(Print(items[0], st), outlen - 1)] + Copies(items[1..], st, outlen)
  }

  lemma {:induction false} SeekOver(t: string, p: string)
    requires forall i :: 0 <= i < |t| ==> t[i] != '{' && t[i] != ']'
    ensures SeekObject(t + p) == SeekObject(p)
  {
    if t == "" {
      assert t + p == p;
    } else {
      assert (t + p)[1..] == t[1..] + p;
      SeekOver(t[1..], p);
    }
  }

  lemma NextPrinted(j: Json, st: Style, lead: string, b: string, outlen: nat)
    requires Valid(j) && st.Valid() && j.Obj? && outlen >= 1
    requires forall i :: 0 <= i < |lead| ==> lead[i] != '{' && lead[i] != ']'
    ensures NextObj(lead + (Print(j, st) + b), outlen) == Some(Next(Take(Print(j, st), outlen - 1), b))
  {
    hide Balance, Take;
    var q := Print(j, st) + b;
    SeekOver(lead, q);
    assert SeekObject(q) == Some(q);
    BalanceWhole(j, st, b);
    assert q[..|Print(j, st)|] == Print(j, st) && q[|Print(j, st)|..] == b;
  }

  lemma {:induction false} WalkItems(items: seq<Json>, st: Style, lead: string, b: string, outlen: nat)
    requires ValidItems(items) && AllObjects(items) && st.Valid() && outlen >= 1
    requires forall i :: 0 <= i < |lead| ==> lead[i] != '{' && lead[i] != ']'
    ensures WalkAll(lead + (PrintItems(items, st) + ("]" + b)), outlen) == Copies(items, st, outlen)
    decreases |items|
  {
    hide Balance, Take, Print;
    var s := lead + (PrintItems(items, st) + ("]" + b));
    if items == [] {
      assert s == lead + ("]" + b);
      SeekOver(lead, "]" + b);
      assert NextObj(s, outlen) == None;
    } else {
      var gap := if |items| == 1 then "" else "," + st.postComma;
      var rest := gap + (PrintItems(items[1..], st) + ("]" + b));
      assert s == lead + (Print(items[0], st) + rest);
      NextPrinted(items[0], st, lead, rest, outlen);
      WalkItems(items[1..], st, gap, b, outlen);
    }
  }

  /** Array walk: each object's exact text, in order, cut only by the buffer; then NULL. */
  lemma ArrayWalk(items: seq<Json>, st: Style, b: string, outlen: nat)
    requires ValidItems(items) && AllObjects(items) && st.Valid() && outlen >= 1
    ensures WalkAll(Print(Arr(items), st) + b, outlen) == Copies(items, st, outlen)
  {
    assert Print(Arr(items), st) + b == "[" + (PrintItems(items, st) + ("]" + b));
    WalkItems(items, st, "[", b, outlen);
  }
}
