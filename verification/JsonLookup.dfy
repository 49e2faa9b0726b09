/**
 What `find_key`, `get_json_string` and `get_raw_span` find in printed JSON.

 The search has no notion of depth and none of escapes in keys: on every document it answers with the first
 member, in printing order and at any depth, whose written key is the wanted one or ends in an escaped quote
 followed by it (`LookupString`, `LookupSpan`).  So it stops at a top-level field exactly when no member before
 it matches at any depth (`FoundIffFirst`).
 */
module JsonLookup {
  import opened Wrappers
  import opened Bytes
  import opened CText
  import opened JsonText
  import opened JsonScan
  import opened JsonValue

  /** A character that can follow a closing quote in printed JSON. */
  predicate Delim(c: char) { IsSpace(c) || c == ',' || c == ':' || c == ']' || c == '}' }

  /** A key the tools search for. */
  predicate SearchKey(key: string) {
    PlainKey(key) && 0 < |key| <= 70 && !Delim(key[0])
  }

  /** Text that can follow a printed value. */
  predicate Follows(b: string) {
    !Starts(SkipSpace(b), ":") && (b == "" || Delim(b[0]))
  }

  // ---- the first matching member in printing order ----

  /** What the search takes for a key: the key itself, or one written `...\"key`. */
  predicate Matches(written: string, key: string) {
    written == key || (|written| > |key| && written[|written| - |key| - 1..] == "\"" + key)
  }

  /** A key written without quotes matches only as a whole. */
  lemma PlainMatches(written: string, key: string)
    requires '\"' !in written
    ensures Matches(written, key) <==> written == key
  {
    if |written| > |key| {
      var n := |written| - |key| - 1;
      assert written[n] in written && written[n..][0] == written[n];
    }
  }

  function FirstKey(j: Json, key: string): Option<Json>
    decreases j, 1
  {
    match j
    case Lit(_) => None
    case Str(_) => None
    case Arr(items) => FirstKeyItems(items, key)
    case Obj(members) => FirstKeyMembers(members, key)
  }

  function FirstKeyItems(items: seq<Json>, key: string): Option<Json>
    decreases items, 0
  {
    if items == [] then None
    else if FirstKey(items[0], key).Some? then FirstKey(items[0], key)
    else FirstKeyItems(items[1..], key)
  }

  function FirstKeyMembers(ms: seq<Member>, key: string): Option<Json>
    decreases ms, 0
  {
    if ms == [] then None
    else if Matches(ms[0].key, key) then Some(ms[0].value)
    else if FirstKey(ms[0].value, key).Some? then FirstKey(ms[0].value, key)
    else FirstKeyMembers(ms[1..], key)
  }

  // ---- stretches of text in which the search finds nothing ----

  /** At offset `i` of `a + b` there is no key, and no match of the pattern reaches into `b`. */
  predicate QuietAt(a: string, b: string, pat: string, i: nat)
    requires i < |a|
  {
    Starts(a[i..] + b, pat) ==> i + |pat| <= |a| && !KeyHere(a[i..] + b, pat)
  }

  predicate Quiet(a: string, b: string, pat: string) {
    forall i :: 0 <= i < |a| ==> QuietAt(a, b, pat, i)
  }

  lemma QuietDrop(a: string, b: string, pat: string, k: nat)
    requires Quiet(a, b, pat) && k <= |a|
    ensures Quiet(a[k..], b, pat)
  {
    forall i | 0 <= i < |a| - k ensures QuietAt(a[k..], b, pat, i) {
      assert QuietAt(a, b, pat, k + i);
      DropDrop(a, k, i);
    }
  }

  lemma {:induction false} QuietSkips(a: string, b: string, pat: string)
    requires Quiet(a, b, pat) && pat != ""
    ensures FindPat(a + b, pat) == FindPat(b, pat)
    decreases |a|
  {
    hide FindPat, SkipSpace;
    if a == "" {
      assert a + b == b;
    } else {
      var s := a + b;
      assert QuietAt(a, b, pat, 0) && a[0..] == a;
      FindPatStep(s, pat);
      if Starts(s, pat) {
        QuietDrop(a, b, pat, |pat|);
        QuietSkips(a[|pat|..], b, pat);
        assert s[|pat|..] == a[|pat|..] + b;
      } else {
        QuietDrop(a, b, pat, 1);
        QuietSkips(a[1..], b, pat);
        assert s[1..] == a[1..] + b;
        if |s| < |pat| { FindPatStep(b, pat); }
      }
    }
  }

  lemma QuietAppend(a: string, c: string, b: string, pat: string)
    requires Quiet(a, c + b, pat) && Quiet(c, b, pat)
    ensures Quiet(a + c, b, pat)
  {
    forall i | 0 <= i < |a + c| ensures QuietAt(a + c, b, pat, i) {
      if i < |a| {
        assert QuietAt(a, c + b, pat, i);
        assert (a + c)[i..] + b == a[i..] + (c + b);
      } else {
        assert QuietAt(c, b, pat, i - |a|);
        assert (a + c)[i..] == c[i - |a|..];
      }
    }
  }

  lemma StartsQuoted(s: string, key: string)
    requires Starts(s, Quoted(key))
    ensures |s| >= |key| + 2 && s[0] == '\"' && s[|key| + 1] == '\"'
    ensures forall k :: 0 <= k < |key| ==> s[k + 1] == key[k]
  {
    assert forall k :: 0 <= k < |Quoted(key)| ==> s[k] == Quoted(key)[k];
    assert forall k :: 0 <= k < |key| ==> Quoted(key)[k + 1] == key[k];
  }

  lemma QuietPlain(a: string, b: string, key: string)
    requires '\"' !in a
    ensures Quiet(a, b, Quoted(key))
  {
    forall i | 0 <= i < |a| ensures QuietAt(a, b, Quoted(key), i) {
      assert a[i] in a && (a[i..] + b)[0] == a[i];
      if Starts(a[i..] + b, Quoted(key)) {
        StartsQuoted(a[i..] + b, key);
        assert false;
      }
    }
  }

  /** The characters of a printed string from offset `i` on, seen through the text after it. */
  lemma InsideQuoted(raw: string, b: string, i: nat)
    requires i < |raw| + 2
    ensures var s, t := Quoted(raw)[i..] + b, Quoted(raw);
            && |s| == |raw| + 2 - i + |b|
            && (forall k :: i <= k < |raw| + 2 ==> At(s, k - i) == At(t, k))
            && (forall k :: 0 < k <= |raw| ==> At(t, k) == At(raw, k - 1))
            && At(t, |raw| + 1) == '\"'
            && (b != "" ==> At(s, |raw| + 2 - i) == b[0])
            && s[|raw| + 2 - i..] == b
  {
  }

  /** A match cannot start on the closing quote, nor reach past it. */
  lemma MatchStaysInside(raw: string, b: string, key: string, i: nat)
    requires SearchKey(key) && (b == "" || Delim(b[0]))
    requires i < |raw| + 2 && Starts(Quoted(raw)[i..] + b, Quoted(key))
    ensures i + |key| <= |raw|
  {
    hide Quoted, Starts;
    var s, last := Quoted(raw)[i..] + b, |raw| + 1;
    InsideQuoted(raw, b, i);
    StartsQuoted(s, key);
    assert At(s, 1) == At(key, 0);
    assert i < last;
    assert forall k :: 0 <= k < |key| ==> At(s, k + 1) == At(key, k) && At(key, k) in key;
    assert At(s, last - i) == '\"';
    assert last - i - 1 < |key| ==> At(key, last - i - 1) in key && At(s, last - i) == At(key, last - i - 1);
  }

  /** A match that begins inside a printed string ends on its closing quote. */
  lemma MatchEndsString(raw: string, b: string, key: string, i: nat)
    requires ValidBody(raw) && SearchKey(key) && (b == "" || Delim(b[0]))
    requires i < |raw| + 2 && Starts(Quoted(raw)[i..] + b, Quoted(key))
    ensures i + |key| == |raw|
    ensures (Quoted(raw)[i..] + b)[|key| + 2..] == b
    ensures forall k :: 0 <= k < |key| ==> raw[i + k] == key[k]
    ensures i > 0 ==> raw[i - 1] == '\"'
  {
    hide Quoted, Starts, ValidBody;
    MatchStaysInside(raw, b, key, i);
    var s, t, n := Quoted(raw)[i..] + b, Quoted(raw), |key|;
    InsideQuoted(raw, b, i);
    StartsQuoted(s, key);
    QuotesEscaped(raw);
    assert At(s, (i + n + 1) - i) == At(t, i + n + 1) == '\"';
    assert At(s, (i + n) - i) == At(t, i + n) == At(raw, i + n - 1);
    assert At(s, (n - 1) + 1) == key[n - 1] && key[n - 1] in key;
    assert i + n < |raw| ==> At(t, i + n + 1) == At(raw, i + n);
    assert i + n == |raw|;
    assert At(s, i - i) == At(t, i);
    forall k | 0 <= k < n ensures raw[i + k] == key[k] {
      assert At(s, (i + k + 1) - i) == At(t, i + k + 1) == At(raw, i + k);
    }
  }

  lemma QuotesEscaped(raw: string)
    requires ValidBody(raw)
    ensures forall m :: 0 <= m < |raw| && raw[m] == '\"' ==> m > 0 && raw[m - 1] == '\\'
  {
    forall m | 0 <= m < |raw| && raw[m] == '\"' ensures m > 0 && raw[m - 1] == '\\' {
      QuoteIsEscaped(raw, m);
    }
  }

  lemma QuietValueAt(raw: string, b: string, key: string, i: nat)
    requires ValidBody(raw) && SearchKey(key) && Follows(b) && i < |raw| + 2
    ensures QuietAt(Quoted(raw), b, Quoted(key), i)
  {
    hide ValidBody, SkipSpace, Starts, Quoted;
    if Starts(Quoted(raw)[i..] + b, Quoted(key)) {
      MatchEndsString(raw, b, key, i);
    }
  }

  /** A string in value position is never taken for a key. */
  lemma QuietValue(raw: string, b: string, key: string)
    requires ValidBody(raw) && SearchKey(key) && Follows(b)
    ensures Quiet(Quoted(raw), b, Quoted(key))
  {
    hide ValidBody, Quoted, QuietAt, Follows, SearchKey;
    forall i | 0 <= i < |Quoted(raw)| ensures QuietAt(Quoted(raw), b, Quoted(key), i) {
      QuietValueAt(raw, b, key, i);
    }
  }

  lemma OtherKeyClash(other: string, key: string, i: nat)
    requires i + |key| == |other|
    requires forall k :: 0 <= k < |key| ==> other[i + k] == key[k]
    requires i > 0 ==> other[i - 1] == '\"'
    ensures Matches(other, key)
  {
    assert other[i..] == key;
    if i > 0 { assert other[i - 1..] == "\"" + key; }
  }

  /** A key that does not match is skipped, whole and in part. */
  lemma QuietOtherKey(other: string, b: string, key: string)
    requires ValidBody(other) && SearchKey(key) && !Matches(other, key) && b != "" && Delim(b[0])
    ensures Quiet(Quoted(other), b, Quoted(key))
  {
    hide Quoted, QuietAt, Matches, ValidBody;
    forall i | 0 <= i < |Quoted(other)| ensures QuietAt(Quoted(other), b, Quoted(key), i) {
      QuietOtherKeyAt(other, b, key, i);
    }
  }

  lemma QuietOtherKeyAt(other: string, b: string, key: string, i: nat)
    requires ValidBody(other) && SearchKey(key) && !Matches(other, key) && b != "" && Delim(b[0]) && i < |other| + 2
    ensures QuietAt(Quoted(other), b, Quoted(key), i)
  {
    hide Starts, Quoted, Matches, ValidBody;
    if Starts(Quoted(other)[i..] + b, Quoted(key)) {
      MatchEndsString(other, b, key, i);
      OtherKeyClash(other, key, i);
    }
  }

  /** The wanted key is found where it stands. */
  lemma KeyFound(key: string, pre: string, rest: string)
    requires AllSpace(pre)
    ensures FindPat(Quoted(key) + (pre + ":" + rest), Quoted(key)) == Some(rest)
  {
    hide Quoted, FindPat, SkipSpace;
    var pat, colon := Quoted(key), ":" + rest;
    var s := pat + (pre + ":" + rest);
    FindPatStep(s, pat);
    Assoc(pre, ":", rest);
    assert s[..|pat|] == pat && s[|pat|..] == pre + colon;
    SkipSpaceOver(pre, colon);
    assert colon[..1] == ":" && colon[1..] == rest;
  }

  /** The part of a key before an escaped quote and the wanted key is skipped. */
  lemma QuietBeforeKey(pre: string, key: string, b: string)
    requires ValidBody(pre + ("\"" + key)) && SearchKey(key) && b != "" && Delim(b[0])
    ensures Quiet("\"" + pre, Quoted(key) + b, Quoted(key))
  {
    hide ValidBody, Starts, SearchKey;
    var raw, a := pre + ("\"" + key), "\"" + pre;
    assert Quoted(raw) == a + Quoted(key);
    hide Quoted;
    forall i | 0 <= i < |a| ensures QuietAt(a, Quoted(key) + b, Quoted(key), i) {
      assert (a + Quoted(key))[i..] == a[i..] + Quoted(key);
      Assoc(a[i..], Quoted(key), b);
      if Starts(Quoted(raw)[i..] + b, Quoted(key)) {
        MatchEndsString(raw, b, key, i);
      }
    }
  }

  /** A matching key ends the search, whatever comes before the escaped quote in it. */
  lemma MatchFound(written: string, key: string, pre: string, rest: string)
    requires ValidBody(written) && SearchKey(key) && AllSpace(pre) && Matches(written, key)
    ensures FindPat(Quoted(written) + (pre + ":" + rest), Quoted(key)) == Some(rest)
  {
    hide ValidBody, SearchKey, FindPat;
    var tail := pre + ":" + rest;
    KeyFound(key, pre, rest);
    if written != key {
      var n := |written| - |key| - 1;
      var head := written[..n];
      assert written == head + ("\"" + key);
      assert Delim(tail[0]);
      QuietBeforeKey(head, key, tail);
      QuietSkips("\"" + head, Quoted(key) + tail, Quoted(key));
      assert Quoted(written) == ("\"" + head) + Quoted(key);
      Assoc("\"" + head, Quoted(key), tail);
    }
  }

  // ---- searching printed values ----

  /** The search answers with the first matching value, at its place in the text. */
  ghost predicate Finds(s: string, key: string, v: Json, st: Style, tail: string) {
    Follows(tail) && FindPat(s, Quoted(key)) == Some(st.postColon + (Print(v, st) + tail))
  }

  lemma SkipNothing(s: string)
    requires s == "" || !IsSpace(s[0])
    ensures SkipSpace(s) == s
  {
  }

  lemma CloseFollows(r: char, b: string)
    requires r == ']' || r == '}' || r == ','
    ensures Follows([r] + b)
  {
    SkipNothing([r] + b);
    StartsAt([r] + b, ":", 0);
  }

  lemma FindsAfter(a: string, b: string, key: string, v: Json, st: Style, tail: string)
    requires Quiet(a, b, Quoted(key)) && Finds(b, key, v, st, tail)
    ensures Finds(a + b, key, v, st, tail)
  {
    hide Follows, Print;
    QuietSkips(a, b, Quoted(key));
  }

  lemma {:induction false} SearchValue(j: Json, key: string, st: Style, b: string) returns (tail: string)
    requires Valid(j) && st.Valid() && SearchKey(key) && Follows(b)
    ensures FirstKey(j, key) == None ==> Quiet(Print(j, st), b, Quoted(key))
    ensures FirstKey(j, key).Some? ==> Finds(Print(j, st) + b, key, FirstKey(j, key).value, st, tail) && |tail| >= |b|
    decreases j, 1
  {
    hide Quiet, Finds, Follows, SearchKey;
    tail := "";
    match j {
      case Lit(text) => QuietPlain(text, b, key);
      case Str(raw) => QuietValue(raw, b, key);
      case Arr(items) =>
        CloseFollows(']', b);
        tail := SearchItems(items, key, st, "]" + b);
        SearchBracketed(PrintItems(items, st), '[', ']', b, key, FirstKey(j, key), st, tail);
      case Obj(ms) =>
        CloseFollows('}', b);
        tail := SearchMembers(ms, key, st, "}" + b);
        SearchBracketed(PrintMembers(ms, st), '{', '}', b, key, FirstKey(j, key), st, tail);
    }
  }

  /** Brackets neither hide nor create a match. */
  lemma SearchBracketed(inner: string, l: char, r: char, b: string, key: string, found: Option<Json>, st: Style,
      tail: string)
    requires l != '\"' && r != '\"'
    requires found == None ==> Quiet(inner, [r] + b, Quoted(key))
    requires found.Some? ==> Finds(inner + ([r] + b), key, found.value, st, tail)
    ensures found == None ==> Quiet([l] + inner + [r], b, Quoted(key))
    ensures found.Some? ==> Finds(([l] + inner + [r]) + b, key, found.value, st, tail)
  {
    hide Quiet, Finds;
    QuietPlain([l], inner + ([r] + b), key);
    if found == None {
      QuietPlain([r], b, key);
      Assoc(inner, [r], b);
      QuietAppend(inner, [r], b, Quoted(key));
      QuietAppend([l], inner + [r], b, Quoted(key));
      Assoc([l], inner, [r]);
    } else {
      FindsAfter([l], inner + ([r] + b), key, found.value, st, tail);
      assert ([l] + inner + [r]) + b == [l] + (inner + ([r] + b));
    }
  }

  /** First `a`, then `rest`: the search goes on into `rest` only if it finds nothing in `a`. */
  lemma SearchTwo(a: string, rest: string, b: string, key: string, first: Option<Json>, second: Option<Json>,
      st: Style, t1: string, t2: string)
    requires first == None ==> Quiet(a, rest + b, Quoted(key))
    requires first.Some? ==> Finds(a + (rest + b), key, first.value, st, t1)
    requires second == None ==> Quiet(rest, b, Quoted(key))
    requires second.Some? ==> Finds(rest + b, key, second.value, st, t2)
    ensures first == None && second == None ==> Quiet(a + rest, b, Quoted(key))
    ensures first.Some? ==> Finds((a + rest) + b, key, first.value, st, t1)
    ensures first == None && second.Some? ==> Finds((a + rest) + b, key, second.value, st, t2)
  {
    hide Quiet, Finds;
    Assoc(a, rest, b);
    if first == None {
      if second == None { QuietAppend(a, rest, b, Quoted(key)); }
      else { FindsAfter(a, rest + b, key, second.value, st, t2); }
    }
  }

  /** The comma and the white space between two entries. */
  lemma GapIsQuiet(ws: string, b: string, key: string)
    requires AllSpace(ws)
    ensures Quiet("," + ws, b, Quoted(key)) && Follows(("," + ws) + b)
  {
    QuietPlain("," + ws, b, key);
    Assoc(",", ws, b);
    CloseFollows(',', ws + b);
  }

  lemma {:induction false} SearchItems(items: seq<Json>, key: string, st: Style, b: string) returns (tail: string)
    requires ValidItems(items) && st.Valid() && SearchKey(key) && Follows(b)
    ensures FirstKeyItems(items, key) == None ==> Quiet(PrintItems(items, st), b, Quoted(key))
    ensures FirstKeyItems(items, key).Some? ==>
              Finds(PrintItems(items, st) + b, key, FirstKeyItems(items, key).value, st, tail) && |tail| >= |b|
    decreases items, 0
  {
    hide Quiet, Finds, Follows, Print, FirstKey;
    tail := "";
    if items == [] {
      QuietPlain("", b, key);
    } else {
      var head := Print(items[0], st);
      if |items| == 1 {
        tail := SearchValue(items[0], key, st, b);
        assert items[1..] == [];
        assert PrintItems(items, st) == head + "" == head;
      } else {
        var gap, more := "," + st.postComma, PrintItems(items[1..], st);
        GapIsQuiet(st.postComma, more + b, key);
        Assoc(gap, more, b);
        var t2 := SearchItems(items[1..], key, st, b);
        SearchTwo(gap, more, b, key, None, FirstKeyItems(items[1..], key), st, "", t2);
        var t1 := SearchValue(items[0], key, st, (gap + more) + b);
        SearchTwo(head, gap + more, b, key, FirstKey(items[0], key), FirstKeyItems(items[1..], key), st, t1, t2);
        tail := if FirstKey(items[0], key).Some? then t1 else t2;
        assert PrintItems(items, st) == head + (gap + more);
      }
    }
  }

  lemma {:induction false} SearchMembers(ms: seq<Member>, key: string, st: Style, b: string) returns (tail: string)
    requires ValidMembers(ms) && st.Valid() && SearchKey(key) && Follows(b)
    ensures FirstKeyMembers(ms, key) == None ==> Quiet(PrintMembers(ms, st), b, Quoted(key))
    ensures FirstKeyMembers(ms, key).Some? ==>
              Finds(PrintMembers(ms, st) + b, key, FirstKeyMembers(ms, key).value, st, tail) && |tail| >= |b|
    decreases ms, 1
  {
    hide Quiet, Finds, Follows, Print, FirstKey, KeyPart, MoreMembers, Matches;
    tail := "";
    if ms == [] {
      QuietPlain("", b, key);
    } else {
      var part, value, more := KeyPart(ms[0].key, st), Print(ms[0].value, st), MoreMembers(ms, st);
      var t2 := SearchMore(ms, key, st, b);
      var t1 := SearchValue(ms[0].value, key, st, more + b);
      var here, later := FirstKey(ms[0].value, key), FirstKeyMembers(ms[1..], key);
      SearchTwo(value, more, b, key, here, later, st, t1, t2);
      var rest := if here.Some? then here else later;
      var t := if here.Some? then t1 else t2;
      var t0 := SearchKeyPart(ms[0], key, st, (value + more) + b, more + b);
      Assoc(value, more, b);
      var own := if Matches(ms[0].key, key) then Some(ms[0].value) else None;
      SearchTwo(part, value + more, b, key, own, rest, st, t0, t);
      tail := if Matches(ms[0].key, key) then t0 else t;
      assert PrintMembers(ms, st) == part + (value + more) by { Assoc(part, value, more); }
    }
  }

  lemma SearchKeyPart(m: Member, key: string, st: Style, b: string, after: string) returns (tail: string)
    requires ValidBody(m.key) && st.Valid() && SearchKey(key) && Follows(after)
    requires b == Print(m.value, st) + after
    ensures !Matches(m.key, key) ==> Quiet(KeyPart(m.key, st), b, Quoted(key))
    ensures Matches(m.key, key) ==> Finds(KeyPart(m.key, st) + b, key, m.value, st, tail) && tail == after
  {
    hide Quiet, Follows, Print, FindPat, Matches, ValidBody;
    tail := after;
    var colon := st.preColon + ":" + st.postColon;
    Assoc(Quoted(m.key), colon, b);
    if Matches(m.key, key) {
      assert colon + b == st.preColon + ":" + (st.postColon + b);
      MatchFound(m.key, key, st.preColon, st.postColon + b);
    } else {
      assert '\"' !in colon;
      QuietPlain(colon, b, key);
      assert Delim((colon + b)[0]);
      QuietOtherKey(m.key, colon + b, key);
      QuietAppend(Quoted(m.key), colon, b, Quoted(key));
    }
  }

  lemma SearchMore(ms: seq<Member>, key: string, st: Style, b: string) returns (tail: string)
    requires ms != [] && ValidMembers(ms) && st.Valid() && SearchKey(key) && Follows(b)
    ensures Follows(MoreMembers(ms, st) + b)
    ensures FirstKeyMembers(ms[1..], key) == None ==> Quiet(MoreMembers(ms, st), b, Quoted(key))
    ensures FirstKeyMembers(ms[1..], key).Some? ==>
              Finds(MoreMembers(ms, st) + b, key, FirstKeyMembers(ms[1..], key).value, st, tail) && |tail| >= |b|
    decreases ms, 0
  {
    hide Quiet, Finds, Follows, Print, FirstKey;
    if |ms| == 1 {
      tail := "";
      assert "" + b == b;
      QuietPlain("", b, key);
    } else {
      var gap, more := "," + st.postComma, PrintMembers(ms[1..], st);
      tail := SearchMembers(ms[1..], key, st, b);
      GapIsQuiet(st.postComma, more + b, key);
      Assoc(gap, more, b);
      SearchTwo(gap, more, b, key, None, FirstKeyMembers(ms[1..], key), st, "", tail);
    }
  }

  // ---- what the callers get ----

  lemma PrintHead(j: Json, st: Style, b: string)
    requires Valid(j)
    ensures var s := Print(j, st) + b;
            && s != "" && !IsSpace(s[0])
            && (j.Str? <==> s[0] == '\"') && (j.Arr? <==> s[0] == '[') && (j.Obj? <==> s[0] == '{')
  {
  }

  /** Nothing to find at all. */
  lemma NothingFound(key: string)
    ensures FindPat("", Quoted(key)) == None
  {
  }

  /** The text `find_key` returns, blanks skipped: the first matching value and what follows it. */
  lemma Lookup(j: Json, key: string, st: Style) returns (tail: string)
    requires Valid(j) && st.Valid() && SearchKey(key)
    ensures FirstKey(j, key) == None ==> FindKey(Print(j, st), key) == None
    ensures FirstKey(j, key).Some? ==>
              && FindKey(Print(j, st), key).Some?
              && FindKey(Print(j, st), key).value == st.postColon + (Print(FirstKey(j, key).value, st) + tail)
              && SkipSpace(FindKey(Print(j, st), key).value) == Print(FirstKey(j, key).value, st) + tail
              && Follows(tail)
  {
    hide Quiet, Print, FindPat, SkipSpace, Quoted, FirstKey, Follows, Finds, Valid;
    EmptyFollows();
    tail := SearchValue(j, key, st, "");
    assert Print(j, st) + "" == Print(j, st);
    if FirstKey(j, key) == None {
      QuietSkips(Print(j, st), "", Quoted(key));
      NothingFound(key);
    } else {
      FirstKeyValid(j, key);
      FoundValue(Print(j, st), key, FirstKey(j, key).value, st, tail);
    }
  }

  lemma FoundValue(s: string, key: string, v: Json, st: Style, tail: string)
    requires Finds(s, key, v, st, tail) && Valid(v) && st.Valid()
    ensures FindPat(s, Quoted(key)) == Some(st.postColon + (Print(v, st) + tail)) && Follows(tail)
    ensures SkipSpace(FindPat(s, Quoted(key)).value) == Print(v, st) + tail
  {
    hide Print, FindPat, SkipSpace, Quoted, Follows, Valid;
    PrintHead(v, st, tail);
    SkipSpaceOver(st.postColon, Print(v, st) + tail);
  }

  lemma EmptyFollows()
    ensures Follows("")
  {
  }

  lemma {:induction false} FirstKeyValid(j: Json, key: string)
    requires Valid(j)
    ensures FirstKey(j, key).Some? ==> Valid(FirstKey(j, key).value)
    decreases j, 1
  {
    match j {
      case Lit(_) =>
      case Str(_) =>
      case Arr(items) => FirstKeyItemsValid(items, key);
      case Obj(ms) => FirstKeyMembersValid(ms, key);
    }
  }

  lemma {:induction false} FirstKeyItemsValid(items: seq<Json>, key: string)
    requires ValidItems(items)
    ensures FirstKeyItems(items, key).Some? ==> Valid(FirstKeyItems(items, key).value)
    decreases items, 0
  {
    if items != [] {
      FirstKeyValid(items[0], key);
      FirstKeyItemsValid(items[1..], key);
    }
  }

  lemma {:induction false} FirstKeyMembersValid(ms: seq<Member>, key: string)
    requires ValidMembers(ms)
    ensures FirstKeyMembers(ms, key).Some? ==> Valid(FirstKeyMembers(ms, key).value)
    decreases ms, 0
  {
    if ms != [] {
      FirstKeyValid(ms[0].value, key);
      FirstKeyMembersValid(ms[1..], key);
    }
  }

  lemma {:induction false} BodyEnds(raw: string, b: string)
    requires ValidBody(raw)
    ensures BodyLen(raw + ("\"" + b)) == |raw|
  {
    var s := raw + ("\"" + b);
    BodyLenStep(s);
    if raw != "" {
      if raw[0] == '\\' {
        BodyEnds(raw[2..], b);
        assert s[2..] == raw[2..] + ("\"" + b);
      } else {
        BodyEnds(raw[1..], b);
        assert s[1..] == raw[1..] + ("\"" + b);
      }
    }
  }

  /**
   `get_json_string` on every printed document: the first matching value, decoded into the buffer, if that
   value is a string; otherwise nothing.
   */
  lemma LookupString(j: Json, key: string, st: Style, outlen: nat)
    requires Valid(j) && st.Valid() && SearchKey(key)
    ensures GetString(Print(j, st), key, outlen)
         == match FirstKey(j, key)
            case Some(Str(raw)) => Some(CStr(UnescapeWithin(raw, outlen - 4)))
            case _ => None
  {
    hide Print, FindKey, SkipSpace, FirstKey, CStr, UnescapeWithin;
    var tail := Lookup(j, key, st);
    var found := FirstKey(j, key);
    if found.Some? {
      var v := found.value;
      FirstKeyValid(j, key);
      PrintHead(v, st, tail);
      var text := Print(v, st) + tail;
      StartsChar(text, '\"');
      if v.Str? {
        PrintedString(v.raw, st, tail);
      }
    }
  }

  /** A string that leaves room in the buffer and decodes to no NUL arrives whole. */
  lemma LookupFits(j: Json, key: string, st: Style, outlen: nat, raw: string)
    requires Valid(j) && st.Valid() && SearchKey(key) && FirstKey(j, key) == Some(Str(raw))
    requires |Unescape(raw)| <= outlen - 4 && '\0' !in Unescape(raw)
    ensures GetString(Print(j, st), key, outlen) == Some(Unescape(raw))
  {
    hide Valid, Print, FirstKey, GetString, SearchKey, Unescape, UnescapeWithin, CStr;
    LookupString(j, key, st, outlen);
    UnescapeWithinIsPrefix(raw, outlen - 4);
    CStrOfNulFree(Unescape(raw));
  }

  /** `value` is the decoded string under `key`, and fits a buffer of `size`. */
  predicate HasText(j: Json, key: string, value: string, size: nat) {
    match FirstKey(j, key)
    case Some(Str(raw)) => Unescape(raw) == value && |value| <= size - 4 && '\0' !in value
    case _ => false
  }

  lemma ReadsText(j: Json, key: string, value: string, st: Style, size: nat)
    requires Valid(j) && st.Valid() && SearchKey(key) && HasText(j, key, value, size)
    ensures GetString(Print(j, st), key, size) == Some(value) && GetStringOrEmpty(Print(j, st), key, size) == value
  {
    hide Valid, Print, GetString, SearchKey, Unescape;
    LookupFits(j, key, st, size, FirstKey(j, key).value.raw);
  }

  lemma PrintedString(raw: string, st: Style, tail: string)
    requires ValidBody(raw)
    ensures var t := Print(Str(raw), st) + tail;
            |t| >= 1 && BodyLen(t[1..]) == |raw| && t[1..][..|raw|] == raw
  {
    hide ValidBody, BodyLen;
    var t := Print(Str(raw), st) + tail;
    assert t[1..] == raw + ("\"" + tail);
    BodyEnds(raw, tail);
  }

  /** `get_raw_span` on every printed document: exactly the text of the first matching array or object. */
  lemma LookupSpan(j: Json, key: string, st: Style)
    requires Valid(j) && st.Valid() && SearchKey(key)
    ensures RawSpan(Print(j, st), key)
         == match FirstKey(j, key)
            case Some(v) => if v.Arr? || v.Obj? then Some(Print(v, st)) else None
            case None => None
  {
    hide Print, FindKey, SkipSpace, FirstKey, Balance;
    var tail := Lookup(j, key, st);
    var found := FirstKey(j, key);
    if found.Some? {
      var v := found.value;
      FirstKeyValid(j, key);
      PrintHead(v, st, tail);
      var text := Print(v, st) + tail;
      StartsChar(text, '[');
      StartsChar(text, '{');
      if v.Arr? || v.Obj? {
        BalanceWhole(v, st, tail);
        assert text[..|Print(v, st)|] == Print(v, st);
      }
    }
  }

  // ---- depth ----

  /** What the search finds in one member: its own value, or the first match inside it. */
  function FoundIn(m: Member, key: string): Option<Json> {
    if Matches(m.key, key) then Some(m.value) else FirstKey(m.value, key)
  }

  /** Nothing in these members matches, at any depth. */
  predicate Lacks(ms: seq<Member>, key: string) { forall k :: 0 <= k < |ms| ==> FoundIn(ms[k], key) == None }

  lemma LacksTail(ms: seq<Member>, key: string)
    requires ms != []
    ensures Lacks(ms, key) <==> FoundIn(ms[0], key) == None && Lacks(ms[1..], key)
  {
    hide FoundIn;
    assert forall k :: 1 <= k < |ms| ==> ms[k] == ms[1..][k - 1];
    assert forall k :: 0 <= k < |ms| - 1 ==> ms[1..][k] == ms[k + 1];
  }

  /** Two views of the members before `i`. */
  lemma BeforeMember(ms: seq<Member>, key: string, i: nat)
    requires 0 < i <= |ms|
    ensures ms[..i][0] == ms[0] && ms[..i][1..] == ms[1..][..i - 1]
    ensures Lacks(ms[..i], key) <==> FoundIn(ms[0], key) == None && Lacks(ms[1..][..i - 1], key)
  {
    hide FoundIn, Lacks;
    assert ms[..i][0] == ms[0] && ms[..i][1..] == ms[1..][..i - 1];
    LacksTail(ms[..i], key);
  }

  /** The first member with a match in it decides the answer. */
  lemma {:induction false} FirstMatchWins(ms: seq<Member>, key: string, k: nat)
    requires k < |ms| && Lacks(ms[..k], key) && FoundIn(ms[k], key).Some?
    ensures FirstKey(Obj(ms), key) == FoundIn(ms[k], key)
  {
    hide Lacks, Matches;
    if k > 0 {
      BeforeMember(ms, key, k);
      FirstMatchWins(ms[1..], key, k - 1);
    }
  }

  /** The lookup is right about a top-level field when nothing before it matches at any depth. */
  lemma FieldIsFirst(ms: seq<Member>, key: string, i: nat)
    requires i < |ms| && Matches(ms[i].key, key) && Lacks(ms[..i], key)
    ensures FirstKey(Obj(ms), key) == Some(ms[i].value)
  {
    hide Lacks, FirstKey, Matches;
    FirstMatchWins(ms, key, i);
  }

  /** The same for keys written without quotes, as the printers here write them. */
  lemma PlainFieldIsFirst(ms: seq<Member>, key: string, i: nat)
    requires i < |ms| && ms[i].key == key
    requires forall k :: 0 <= k < i ==> '\"' !in ms[k].key && ms[k].key != key && FirstKey(ms[k].value, key) == None
    ensures FirstKey(Obj(ms), key) == Some(ms[i].value)
  {
    hide FirstKey;
    forall k | 0 <= k < i ensures !Matches(ms[k].key, key) { PlainMatches(ms[k].key, key); }
    assert Lacks(ms[..i], key);
    FieldIsFirst(ms, key, i);
  }

  /** Otherwise the first nested match is returned instead. */
  lemma EarlierNestedKeyWins(ms: seq<Member>, key: string, k: nat)
    requires k < |ms| && Lacks(ms[..k], key) && !Matches(ms[k].key, key) && FirstKey(ms[k].value, key).Some?
    ensures FirstKey(Obj(ms), key) == FirstKey(ms[k].value, key)
  {
    hide Lacks, FirstKey, Matches;
    FirstMatchWins(ms, key, k);
  }

  /** The member that hides the field `i`: the first before it that matches or holds a match. */
  lemma {:induction false} HidingMember(ms: seq<Member>, key: string, i: nat) returns (k: nat)
    requires i <= |ms| && !Lacks(ms[..i], key)
    ensures k < i && Lacks(ms[..k], key) && FoundIn(ms[k], key).Some?
  {
    hide Lacks, FoundIn;
    if i == 0 { LacksNothing(ms[..i], key); }
    BeforeMember(ms, key, i);
    if FoundIn(ms[0], key).Some? {
      k := 0;
      LacksNothing(ms[..0], key);
    } else {
      k := HidingMember(ms[1..], key, i - 1);
      k := k + 1;
      BeforeMember(ms, key, k);
    }
  }

  lemma LacksNothing(ms: seq<Member>, key: string)
    requires ms == []
    ensures Lacks(ms, key)
  {
  }

  /**
   The value returned is that of the matching member `i` exactly when nothing before it matches at any depth, or
   the first earlier match, top-level or nested, happens to have the same value.
   */
  lemma SameValueIff(ms: seq<Member>, key: string, i: nat)
    requires i < |ms| && Matches(ms[i].key, key)
    ensures FirstKey(Obj(ms), key) == Some(ms[i].value)
            <==> Lacks(ms[..i], key)
                 || exists k :: 0 <= k < i && Lacks(ms[..k], key) && FoundIn(ms[k], key) == Some(ms[i].value)
  {
    hide Lacks, FirstKey, FoundIn;
    if Lacks(ms[..i], key) {
      FieldIsFirst(ms, key, i);
    } else {
      var h := HidingMember(ms, key, i);
      FirstMatchWins(ms, key, h);
      forall k | 0 <= k < i && Lacks(ms[..k], key) && FoundIn(ms[k], key) == Some(ms[i].value)
        ensures FirstKey(Obj(ms), key) == Some(ms[i].value)
      {
        FirstMatchWins(ms, key, k);
      }
    }
  }

  /** The printed text from the value of member `i` on. */
  function FromMember(ms: seq<Member>, i: nat, st: Style, b: string): string
    requires i < |ms|
  {
    st.postColon + (Print(ms[i].value, st) + (MoreMembers(ms[i..], st) + b))
  }

  lemma {:induction false} MemberFound(ms: seq<Member>, key: string, i: nat, st: Style, b: string)
    requires ValidMembers(ms) && st.Valid() && SearchKey(key) && Follows(b)
    requires i < |ms| && Matches(ms[i].key, key)
    ensures FindPat(PrintMembers(ms, st) + b, Quoted(key)) == Some(FromMember(ms, i, st, b)) <==> Lacks(ms[..i], key)
    decreases ms
  {
    hide Lacks, Matches, FirstKey, FindPat, SearchKey, Follows, Print, Quiet, KeyPart, Valid, ValidBody;
    var part, value := KeyPart(ms[0].key, st), Print(ms[0].value, st);
    var more := MoreMembers(ms, st);
    assert PrintMembers(ms, st) + b == part + (value + (more + b));
    MoreFollows(ms, st, b);
    var t0 := SearchKeyPart(ms[0], key, st, value + (more + b), more + b);
    if i == 0 {
      assert ms[0..] == ms;
      LacksNothing(ms[..0], key);
    } else {
      BeforeMember(ms, key, i);
      var gap, rest := "," + st.postComma, PrintMembers(ms[1..], st);
      assert more + b == gap + (rest + b);
      assert FromMember(ms, i, st, b) == FromMember(ms[1..], i - 1, st, b) by { DropDrop(ms, 1, i - 1); }
      FromMemberIsShort(ms[1..], i - 1, st, b);
      var t1 := SearchValue(ms[0].value, key, st, more + b);
      if !Matches(ms[0].key, key) { QuietSkips(part, value + (more + b), Quoted(key)); }
      if FoundIn(ms[0], key) == None {
        QuietSkips(value, more + b, Quoted(key));
        GapIsQuiet(st.postComma, rest + b, key);
        QuietSkips(gap, rest + b, Quoted(key));
        MemberFound(ms[1..], key, i - 1, st, b);
      }
    }
  }

  lemma MoreFollows(ms: seq<Member>, st: Style, b: string)
    requires ms != [] && st.Valid() && Follows(b)
    ensures Follows(MoreMembers(ms, st) + b)
  {
    hide PrintMembers, Follows;
    if |ms| == 1 {
      assert "" + b == b;
    } else {
      CloseFollows(',', st.postComma + (PrintMembers(ms[1..], st) + b));
      assert MoreMembers(ms, st) + b == "," + (st.postComma + (PrintMembers(ms[1..], st) + b));
    }
  }

  lemma {:induction false} FromMemberIsShort(ms: seq<Member>, i: nat, st: Style, b: string)
    requires i < |ms|
    ensures |FromMember(ms, i, st, b)| < |PrintMembers(ms, st) + b|
    decreases i
  {
    hide Print, Quoted;
    if i == 0 {
      assert ms[0..] == ms;
    } else {
      FromMemberIsShort(ms[1..], i - 1, st, b);
      DropDrop(ms, 1, i - 1);
    }
  }

  /** `find_key` stops at the matching member `i` exactly when nothing before it matches at any depth. */
  lemma FoundIffFirst(ms: seq<Member>, key: string, i: nat, st: Style)
    requires ValidMembers(ms) && st.Valid() && SearchKey(key)
    requires i < |ms| && Matches(ms[i].key, key)
    ensures FindKey(Print(Obj(ms), st), key) == Some(FromMember(ms, i, st, "}")) <==> Lacks(ms[..i], key)
  {
    SearchLength(key);
    hide Lacks, Matches, FindPat, FromMember, ValidMembers, PrintMembers, Print, Quoted, SearchKey,
        Follows, Style.Valid;
    var rest := PrintMembers(ms, st) + "}";
    BraceFollows();
    BraceText(ms, st);
    MemberFound(ms, key, i, st, "}");
    OpenBrace(rest, key);
  }

  lemma OpenBrace(rest: string, key: string)
    requires Quoted(key) != ""
    ensures FindPat("{" + rest, Quoted(key)) == FindPat(rest, Quoted(key))
  {
    hide FindPat, Quiet, Quoted;
    QuietPlain("{", rest, key);
    QuietSkips("{", rest, Quoted(key));
  }

  lemma SearchLength(key: string)
    requires SearchKey(key)
    ensures |key| <= 70 && Quoted(key) != ""
  {
  }

  lemma BraceFollows()
    ensures Follows("}")
  {
    CloseFollows('}', "");
    assert ['}'] + "" == "}";
  }

  lemma BraceText(ms: seq<Member>, st: Style)
    ensures Print(Obj(ms), st) == "{" + (PrintMembers(ms, st) + "}")
  {
    hide PrintMembers;
    Assoc("{", PrintMembers(ms, st), "}");
  }

  // ---- two documents on which the wrong field is read ----

  lemma KeyK()
    ensures SearchKey("k") && Matches("k", "k") && !Matches("a", "k") && Matches("a\\\"k", "k")
    ensures ValidBody("a") && ValidBody("k") && ValidBody("1") && ValidBody("2") && ValidBody("a\\\"k")
  {
    PlainKeyIsBody("a");
    PlainKeyIsBody("k");
    PlainKeyIsBody("1");
    PlainKeyIsBody("2");
    ValidBodyAppend("a", "\\\"k");
    assert "\\\"k"[2..] == "k" && "a" + "\\\"k" == "a\\\"k" && "a\\\"k"[2..] == "\"k";
  }

  function Field(m: Member): string { Quoted(m.key) + ":" + Print(m.value, COMPACT) }

  lemma OneField(m: Member)
    ensures Print(Obj([m]), COMPACT) == "{" + Field(m) + "}" && PrintMembers([m], COMPACT) == Field(m)
  {
    hide Print, Quoted;
    assert PrintMembers([m], COMPACT) == Field(m) + "" by { assert KeyPart(m.key, COMPACT) == Quoted(m.key) + ":"; }
    ObjText([m]);
  }

  lemma TwoFields(a: Member, b: Member)
    ensures Print(Obj([a, b]), COMPACT) == "{" + Field(a) + "," + Field(b) + "}"
  {
    hide Print, Quoted;
    OneField(b);
    assert [a, b][1..] == [b];
    assert KeyPart(a.key, COMPACT) == Quoted(a.key) + ":";
    assert PrintMembers([a, b], COMPACT) == Field(a) + ("," + "" + Field(b));
    ObjText([a, b]);
  }

  lemma ObjText(ms: seq<Member>)
    ensures Print(Obj(ms), COMPACT) == "{" + PrintMembers(ms, COMPACT) + "}"
  {
  }

  lemma StrText(raw: string)
    ensures Print(Str(raw), COMPACT) == Quoted(raw)
  {
  }

  lemma ValidPair(a: Member, b: Member)
    requires ValidBody(a.key) && ValidBody(b.key) && Valid(a.value) && Valid(b.value)
    ensures ValidMembers([a, b]) && ValidMembers([b])
  {
    hide ValidBody;
    var none: seq<Member> := [];
    assert [a, b][1..] == [b] && [b][1..] == none;
    assert ValidMembers(none);
    assert ValidMembers([b]);
  }

  const K1 := Member("k", Str("1"))
  const K2 := Member("k", Str("2"))

  /** The printed `{"a":{"k":"1"},"k":"2"}` holds `2` under `k`, but the nested `1` is read. */
  lemma TopLevelMissed()
    ensures Print(Obj([Member("a", Obj([K1])), K2]), COMPACT) == "{" + "\"a\":{\"k\":\"1\"}" + "," + "\"k\":\"2\"" + "}"
    ensures GetString(Print(Obj([Member("a", Obj([K1])), K2]), COMPACT), "k", 32) == Some("1")
  {
    NestedText();
    NestedFirst();
    hide Print, FirstKey, GetString, ValidMembers, SearchKey;
    TwoFields(Member("a", Obj([K1])), K2);
    ReadsOne([Member("a", Obj([K1])), K2]);
  }

  lemma NestedText()
    ensures Field(Member("a", Obj([K1]))) == "\"a\":{\"k\":\"1\"}" && Field(K2) == "\"k\":\"2\""
  {
    hide Print;
    OneField(K1);
    StrText("1");
    StrText("2");
  }

  lemma NestedFirst()
    ensures var ms := [Member("a", Obj([K1])), K2];
            SearchKey("k") && ValidMembers(ms) && FirstKey(Obj(ms), "k") == Some(Str("1"))
  {
    KeyK();
    var a := Member("a", Obj([K1]));
    hide SearchKey, ValidBody, Matches;
    ValidPair(K1, K1);
    ValidPair(a, K2);
    LacksNothing([K1][..0], "k");
    LacksNothing([a, K2][..0], "k");
    FieldIsFirst([K1], "k", 0);
    EarlierNestedKeyWins([a, K2], "k", 0);
  }

  /** The printed `{"a\"k":"1","k":"2"}` has `2` under `k`, but the search stops inside the first key. */
  lemma EscapedKeyMatched()
    ensures Print(Obj([Member("a\\\"k", Str("1")), K2]), COMPACT)
            == "{" + "\"a\\\"k\":\"1\"" + "," + "\"k\":\"2\"" + "}"
    ensures GetString(Print(Obj([Member("a\\\"k", Str("1")), K2]), COMPACT), "k", 32) == Some("1")
  {
    EscapedText();
    EscapedFirst();
    hide Print, FirstKey, GetString, ValidMembers, SearchKey;
    TwoFields(Member("a\\\"k", Str("1")), K2);
    ReadsOne([Member("a\\\"k", Str("1")), K2]);
  }

  lemma EscapedText()
    ensures Field(Member("a\\\"k", Str("1"))) == "\"a\\\"k\":\"1\"" && Field(K2) == "\"k\":\"2\""
  {
    hide Print;
    StrText("1");
    StrText("2");
  }

  lemma EscapedFirst()
    ensures var ms := [Member("a\\\"k", Str("1")), K2];
            SearchKey("k") && ValidMembers(ms) && FirstKey(Obj(ms), "k") == Some(Str("1"))
  {
    KeyK();
    var a := Member("a\\\"k", Str("1"));
    hide SearchKey, ValidBody, Matches;
    ValidPair(a, K2);
    LacksNothing([a, K2][..0], "k");
    FieldIsFirst([a, K2], "k", 0);
  }

  lemma ReadsOne(ms: seq<Member>)
    requires ValidMembers(ms) && SearchKey("k") && FirstKey(Obj(ms), "k") == Some(Str("1"))
    ensures GetString(Print(Obj(ms), COMPACT), "k", 32) == Some("1")
  {
    hide Print, FirstKey, GetString, ValidMembers, SearchKey;
    UnescapePlain("1");
    LookupFits(Obj(ms), "k", COMPACT, 32, "1");
  }
}
