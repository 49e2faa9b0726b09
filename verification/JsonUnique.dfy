/**
 Printed JSON can be read in one way only: equal texts come from equal values.
 */
module JsonUnique {
  import opened CText
  import opened Bytes
  import opened JsonText
  import opened JsonScan
  import opened JsonValue
  import opened JsonLookup

  lemma Peel(a: string, b: string, x: string, y: string)
    requires |a| == |b| && a + x == b + y
    ensures a == b && x == y
  {
    assert (a + x)[..|a|] == a && (b + y)[..|b|] == b;
    assert (a + x)[|a|..] == x && (b + y)[|b|..] == y;
  }

  /** A string body ends at its closing quote. */
  lemma PeelBody(a: string, b: string, x: string, y: string)
    requires ValidBody(a) && ValidBody(b) && a + ("\"" + x) == b + ("\"" + y)
    ensures a == b && x == y
  {
    hide ValidBody, BodyLen;
    BodyEnds(a, x);
    BodyEnds(b, y);
    Peel(a, b, "\"" + x, "\"" + y);
    Peel("\"", "\"", x, y);
  }

  /** Text that cannot go on a number or a literal. */
  predicate Stops(b: string) { b == "" || !LitChar(b[0]) }

  predicate AllLit(a: string) { forall i :: 0 <= i < |a| ==> LitChar(a[i]) }

  lemma NulIsNoLit()
    ensures !LitChar('\0')
  {
  }

  lemma {:induction false} PeelLit(a: string, b: string, x: string, y: string)
    requires AllLit(a) && AllLit(b) && Stops(x) && Stops(y) && a + x == b + y
    ensures a == b && x == y
  {
    hide LitChar;
    assert At(a + x, 0) == (if a == "" then At(x, 0) else At(a, 0));
    assert At(b + y, 0) == (if b == "" then At(y, 0) else At(b, 0));
    NulIsNoLit();
    if a == "" || b == "" {
      assert "" + x == x && "" + y == y;
    } else {
      assert (a + x)[1..] == a[1..] + x && (b + y)[1..] == b[1..] + y;
      assert AllLit(a[1..]) && AllLit(b[1..]);
      PeelLit(a[1..], b[1..], x, y);
    }
  }

  /** A value never begins like the end of an array or object. */
  lemma ValueHead(j: Json, st: Style, b: string)
    requires Valid(j)
    ensures Print(j, st) + b != "" && At(Print(j, st) + b, 0) != ']' && At(Print(j, st) + b, 0) != '}'
  {
  }

  /** What follows the first of several items, and the first of several members. */
  function ItemsTail(items: seq<Json>, st: Style, x: string): string
    requires items != []
  {
    if |items| == 1 then "]" + x else "," + (st.postComma + (PrintItems(items[1..], st) + ("]" + x)))
  }

  function MembersTail(ms: seq<Member>, st: Style, x: string): string
    requires ms != []
  {
    if |ms| == 1 then "}" + x else "," + (st.postComma + (PrintMembers(ms[1..], st) + ("}" + x)))
  }

  lemma ItemsText(items: seq<Json>, st: Style, x: string)
    requires items != []
    ensures PrintItems(items, st) + ("]" + x) == Print(items[0], st) + ItemsTail(items, st, x)
    ensures Stops(ItemsTail(items, st, x))
  {
    hide Print;
    var head, rest := Print(items[0], st), PrintItems(items[1..], st);
    if |items| == 1 {
      assert head + "" == head;
    } else {
      assert PrintItems(items, st) == head + ("," + st.postComma + rest);
      GlueTail(head, st.postComma, rest, "]" + x);
    }
    hide PrintItems;
    StopsHere(',', st.postComma + (rest + ("]" + x)));
    StopsHere(']', x);
  }

  lemma GlueTail(head: string, gap: string, rest: string, end: string)
    ensures (head + ("," + gap + rest)) + end == head + ("," + (gap + (rest + end)))
  {
    Assoc(head, "," + gap + rest, end);
    Assoc("," + gap, rest, end);
    Assoc(",", gap, rest + end);
  }

  lemma StopsHere(c: char, x: string)
    requires c == ',' || c == ']' || c == '}'
    ensures Stops([c] + x)
  {
  }

  lemma MembersText(ms: seq<Member>, st: Style, x: string)
    requires ms != []
    ensures PrintMembers(ms, st) + ("}" + x)
         == "\"" + (ms[0].key + ("\""
             + ((st.preColon + ":" + st.postColon) + (Print(ms[0].value, st) + MembersTail(ms, st, x)))))
    ensures Stops(MembersTail(ms, st, x))
  {
    hide Print;
    var colon, value, tail := st.preColon + ":" + st.postColon, Print(ms[0].value, st), MembersTail(ms, st, x);
    var part, more := KeyPart(ms[0].key, st), MoreMembers(ms, st);
    assert part == "\"" + (ms[0].key + ("\"" + colon)) by { QuotedPart(ms[0].key, colon); }
    assert PrintMembers(ms, st) == part + value + more;
    MoreText(ms, st, x);
    hide PrintMembers, MoreMembers, MembersTail, KeyPart;
    Assoc(part + value, more, "}" + x);
    Assoc(part, value, tail);
    KeyThenRest(ms[0].key, colon, value, tail);
  }

  lemma QuotedPart(key: string, colon: string)
    ensures Quoted(key) + colon == "\"" + (key + ("\"" + colon))
  {
  }

  lemma MoreText(ms: seq<Member>, st: Style, x: string)
    requires ms != []
    ensures MoreMembers(ms, st) + ("}" + x) == MembersTail(ms, st, x) && Stops(MembersTail(ms, st, x))
  {
    hide PrintMembers;
    var rest := PrintMembers(ms[1..], st);
    GlueTail("", st.postComma, rest, "}" + x);
    StopsHere(',', st.postComma + (rest + ("}" + x)));
    StopsHere('}', x);
    assert "" + ("}" + x) == "}" + x;
    assert "" + ("," + st.postComma + rest) == "," + st.postComma + rest;
  }

  lemma KeyThenRest(key: string, colon: string, value: string, tail: string)
    ensures ("\"" + (key + ("\"" + colon))) + (value + tail) == "\"" + (key + ("\"" + (colon + (value + tail))))
  {
  }

  /** Equal texts, equal values: the text after a value is found again. */
  lemma {:induction false} PeelValue(a: Json, b: Json, x: string, y: string, st: Style)
    requires Valid(a) && Valid(b) && st.Valid() && Stops(x) && Stops(y) && Print(a, st) + x == Print(b, st) + y
    ensures a == b && x == y
    decreases a, 1
  {
    PrintHead(a, st, x);
    PrintHead(b, st, y);
    PrintedText(a, st, x);
    PrintedText(b, st, y);
    hide Print, Stops, ValidItems, ValidMembers, ValidBody;
    match a {
      case Lit(t) =>
        LitIsLit(t);
        LitIsLit(b.text);
        PeelLit(t, b.text, x, y);
      case Str(raw) =>
        assert Quoted(raw) + x == "\"" + (raw + ("\"" + x)) && Quoted(b.raw) + y == "\"" + (b.raw + ("\"" + y));
        Peel("\"", "\"", raw + ("\"" + x), b.raw + ("\"" + y));
        PeelBody(raw, b.raw, x, y);
      case Arr(items) =>
        Peel("[", "[", PrintItems(items, st) + ("]" + x), PrintItems(b.items, st) + ("]" + y));
        PeelItems(items, b.items, x, y, st);
      case Obj(ms) =>
        Peel("{", "{", PrintMembers(ms, st) + ("}" + x), PrintMembers(b.members, st) + ("}" + y));
        PeelMembers(ms, b.members, x, y, st);
    }
  }

  lemma LitIsLit(t: string)
    requires Valid(Lit(t))
    ensures AllLit(t)
  {
  }

  lemma {:induction false} PeelItems(s: seq<Json>, t: seq<Json>, x: string, y: string, st: Style)
    requires ValidItems(s) && ValidItems(t) && st.Valid()
    requires PrintItems(s, st) + ("]" + x) == PrintItems(t, st) + ("]" + y)
    ensures s == t && x == y
    decreases s, 0
  {
    hide Print, PrintItems, Valid, Stops;
    if s == [] || t == [] {
      NoItems(s, t, x, y, st);
    } else {
      ItemsText(s, st, x);
      ItemsText(t, st, y);
      PeelValue(s[0], t[0], ItemsTail(s, st, x), ItemsTail(t, st, y), st);
      SameTailItems(s, t, x, y, st);
      assert s == [s[0]] + s[1..] && t == [t[0]] + t[1..];
      if |s| == 1 {
        Peel("]", "]", x, y);
      } else {
        PeelItems(s[1..], t[1..], x, y, st);
      }
    }
  }

  /** An empty array is not taken for another. */
  lemma NoItems(s: seq<Json>, t: seq<Json>, x: string, y: string, st: Style)
    requires ValidItems(s) && ValidItems(t) && (s == [] || t == [])
    requires PrintItems(s, st) + ("]" + x) == PrintItems(t, st) + ("]" + y)
    ensures s == t && x == y
  {
    hide Print, Valid;
    if s != [] {
      ItemsText(s, st, x);
      ValueHead(s[0], st, ItemsTail(s, st, x));
    }
    if t != [] {
      ItemsText(t, st, y);
      ValueHead(t[0], st, ItemsTail(t, st, y));
    }
    hide ItemsTail;
    assert At("]" + x, 0) == ']' && At("]" + y, 0) == ']';
    assert "" + ("]" + x) == "]" + x && "" + ("]" + y) == "]" + y;
    if s == t { Peel("]", "]", x, y); }
  }

  lemma SameTailItems(s: seq<Json>, t: seq<Json>, x: string, y: string, st: Style)
    requires s != [] && t != [] && ItemsTail(s, st, x) == ItemsTail(t, st, y)
    ensures |s| == 1 <==> |t| == 1
    ensures if |s| == 1 then "]" + x == "]" + y
            else PrintItems(s[1..], st) + ("]" + x) == PrintItems(t[1..], st) + ("]" + y)
  {
    hide PrintItems;
    assert At(ItemsTail(s, st, x), 0) == (if |s| == 1 then ']' else ',');
    assert At(ItemsTail(t, st, y), 0) == (if |t| == 1 then ']' else ',');
    if |s| > 1 {
      var p, q := PrintItems(s[1..], st) + ("]" + x), PrintItems(t[1..], st) + ("]" + y);
      Peel(",", ",", st.postComma + p, st.postComma + q);
      Peel(st.postComma, st.postComma, p, q);
    }
  }

  lemma {:induction false} PeelMembers(s: seq<Member>, t: seq<Member>, x: string, y: string, st: Style)
    requires ValidMembers(s) && ValidMembers(t) && st.Valid()
    requires PrintMembers(s, st) + ("}" + x) == PrintMembers(t, st) + ("}" + y)
    ensures s == t && x == y
    decreases s, 0
  {
    hide Print, PrintMembers, Valid, ValidBody, Stops;
    if s == [] || t == [] {
      NoMembers(s, t, x, y, st);
    } else {
      var colon := st.preColon + ":" + st.postColon;
      var u, v := MembersTail(s, st, x), MembersTail(t, st, y);
      MembersText(s, st, x);
      MembersText(t, st, y);
      var p, q := colon + (Print(s[0].value, st) + u), colon + (Print(t[0].value, st) + v);
      Peel("\"", "\"", s[0].key + ("\"" + p), t[0].key + ("\"" + q));
      PeelBody(s[0].key, t[0].key, p, q);
      Peel(colon, colon, Print(s[0].value, st) + u, Print(t[0].value, st) + v);
      PeelValue(s[0].value, t[0].value, u, v, st);
      SameTailMembers(s, t, x, y, st);
      assert s == [s[0]] + s[1..] && t == [t[0]] + t[1..];
      if |s| == 1 {
        Peel("}", "}", x, y);
      } else {
        PeelMembers(s[1..], t[1..], x, y, st);
      }
    }
  }

  /** An empty object is not taken for another. */
  lemma NoMembers(s: seq<Member>, t: seq<Member>, x: string, y: string, st: Style)
    requires s == [] || t == []
    requires PrintMembers(s, st) + ("}" + x) == PrintMembers(t, st) + ("}" + y)
    ensures s == t && x == y
  {
    if s != [] { MembersText(s, st, x); }
    if t != [] { MembersText(t, st, y); }
    hide Print, MembersTail;
    assert At("}" + x, 0) == '}' && At("}" + y, 0) == '}';
    assert "" + ("}" + x) == "}" + x && "" + ("}" + y) == "}" + y;
    if s == t { Peel("}", "}", x, y); }
  }

  lemma SameTailMembers(s: seq<Member>, t: seq<Member>, x: string, y: string, st: Style)
    requires s != [] && t != [] && MembersTail(s, st, x) == MembersTail(t, st, y)
    ensures |s| == 1 <==> |t| == 1
    ensures if |s| == 1 then "}" + x == "}" + y
            else PrintMembers(s[1..], st) + ("}" + x) == PrintMembers(t[1..], st) + ("}" + y)
  {
    hide PrintMembers;
    assert At(MembersTail(s, st, x), 0) == (if |s| == 1 then '}' else ',');
    assert At(MembersTail(t, st, y), 0) == (if |t| == 1 then '}' else ',');
    if |s| > 1 {
      var p, q := PrintMembers(s[1..], st) + ("}" + x), PrintMembers(t[1..], st) + ("}" + y);
      Peel(",", ",", st.postComma + p, st.postComma + q);
      Peel(st.postComma, st.postComma, p, q);
    }
  }

  /** Two values with the same printed text are the same. */
  lemma PrintIsInjective(a: Json, b: Json, st: Style)
    requires Valid(a) && Valid(b) && st.Valid() && Print(a, st) == Print(b, st)
    ensures a == b
  {
    assert Print(a, st) + "" == Print(b, st) + "";
    PeelValue(a, b, "", "", st);
  }
}
