/**
 A timeline entry of the Mastodon client: the fields of a status object, read through a boost, and the HTML
 fragment of its text stripped to plain lines.

 The reference for stripping is a document of glyphs and tags (`Piece`): what it is written as (`Markup`) and
 what it shows (`Show`).
 */
module MastodonStatus {
  import opened Wrappers
  import opened Bytes
  import opened CText
  import opened JsonScan
  import opened JsonValue
  import opened JsonLookup

  const OBJBUF := 16384
  const ACCOBJBUF := 3072
  const CONTENTBUF := 8192

  // ---- stripping ----

  datatype Entity = Entity(name: string, shown: char)

  /** `HTML_ENTITIES`, and the non-breaking space. */
  const ENTITIES := [Entity("amp;", '&'), Entity("lt;", '<'), Entity("gt;", '>'), Entity("quot;", '\"'),
                     Entity("apos;", '\''), Entity("#39;", '\''), Entity("nbsp;", ' ')]

  /** The first entity from position `i` of the table on that the text starts with. */
  function FindEntity(s: string, i: nat): Option<Entity>
    requires i <= |ENTITIES|
    decreases |ENTITIES| - i
  {
    if i == |ENTITIES| then None
    else if Starts(s, ENTITIES[i].name) then Some(ENTITIES[i])
    else FindEntity(s, i + 1)
  }

  /** `strchr(s, '>')`. */
  function CloseAt(s: string): (r: Option<nat>)
    ensures r.Some? ==> r.value < |s| && s[r.value] == '>'
  {
    if s == "" then None
    else if s[0] == '>' then Some(0)
    else match CloseAt(s[1..]) case None => None case Some(k) => Some(k + 1)
  }

  function LowerAll(s: string): string {
    if s == "" then "" else [Lower(s[0])] + LowerAll(s[1..])
  }

  /** A tag that ends a line; only its first 15 characters are looked at. */
  predicate LineTag(tag: string) {
    var t := LowerAll(Take(tag, 15));
    t == "br" || t == "br/" || t == "/p" || t == "/blockquote"
  }

  /** A line break, unless the output already ends with one. */
  function Broken(out: string): string { if out == "" || out[|out| - 1] != '\n' then out + "\n" else out }

  /** The loop of `html_strip`; `cap` leaves room for the terminator. */
  function Strip(s: string, out: string, cap: nat): string
    decreases |s|
  {
    if s == "" || |out| >= cap then out
    else if s[0] == '<' then
      match CloseAt(s)
      case None => out
      case Some(k) => Strip(s[k + 1..], if LineTag(s[1..k]) then Broken(out) else out, cap)
    else if s[0] == '&' then
      match FindEntity(s[1..], 0)
      case Some(e) => Strip(Behind(s[1..], e.name), out + [e.shown], cap)
      case None => Strip(s[1..], out + "&", cap)
    else Strip(s[1..], out + [s[0]], cap)
  }

  /** The text after a matched name. */
  function Behind(s: string, name: string): (r: string)
    ensures |r| <= |s|
  {
    if |name| <= |s| then s[|name|..] else ""
  }

  predicate Blank(c: char) { c == '\n' || c == ' ' || c == '\t' }

  function Trim(s: string): string {
    if s != "" && Blank(s[|s| - 1]) then Trim(s[..|s| - 1]) else s
  }

  function HtmlStrip(s: string, dstlen: nat): string
    requires dstlen >= 1
  {
    Trim(Strip(s, "", dstlen - 1))
  }

  /** Trimming cuts blanks off the end, all of them and nothing else. */
  lemma {:induction false} TrimCutsBlanks(s: string)
    ensures var t := Trim(s);
            && t <= s && (t == "" || !Blank(t[|t| - 1]))
            && forall i :: |t| <= i < |s| ==> Blank(s[i])
  {
    if s != "" && Blank(s[|s| - 1]) { TrimCutsBlanks(s[..|s| - 1]); }
  }

  // ---- documents ----

  /** A character as it is written, or a tag by the text between its angle brackets. */
  datatype Piece = Glyph(shown: char, written: string) | Tag(name: string)

  predicate ValidPiece(p: Piece) {
    match p
    case Glyph(c, w) =>
      || (w == [c] && c != '<' && c != '&')
      || (exists i :: 0 <= i < |ENTITIES| && w == "&" + ENTITIES[i].name && c == ENTITIES[i].shown)
    case Tag(name) => '>' !in name
  }

  predicate ValidPieces(ps: seq<Piece>) { forall i :: 0 <= i < |ps| ==> ValidPiece(ps[i]) }

  function Written(p: Piece): string {
    match p case Glyph(_, w) => w case Tag(name) => "<" + (name + ">")
  }

  function Markup(ps: seq<Piece>): string { if ps == [] then "" else Written(ps[0]) + Markup(ps[1..]) }

  function ShowOne(p: Piece, out: string): string {
    match p case Glyph(c, _) => out + [c] case Tag(name) => if LineTag(name) then Broken(out) else out
  }

  /** What a document shows, appended to `out`. */
  function Show(ps: seq<Piece>, out: string): (r: string)
    ensures out <= r
  {
    if ps == [] then out else Show(ps[1..], ShowOne(ps[0], out))
  }

  lemma {:induction false} CloseIsFirst(name: string, rest: string)
    requires '>' !in name
    ensures CloseAt(name + (">" + rest)) == Some(|name|)
  {
    var s := name + (">" + rest);
    if name != "" {
      assert s[1..] == name[1..] + (">" + rest);
      CloseIsFirst(name[1..], rest);
    }
  }

  lemma StripTag(name: string, rest: string, out: string, cap: nat)
    requires '>' !in name && |out| < cap
    ensures Strip(Written(Tag(name)) + rest, out, cap) == Strip(rest, ShowOne(Tag(name), out), cap)
  {
    hide LineTag, Broken;
    var s := Written(Tag(name)) + rest;
    var k := |name| + 1;
    CloseIsFirst("<" + name, rest);
    assert s == ("<" + name) + (">" + rest);
    assert s[1..k] == name && s[k + 1..] == rest;
  }

  /** No name in the table starts with another. */
  lemma EntityFound(i: nat, rest: string)
    requires i < |ENTITIES|
    ensures FindEntity(ENTITIES[i].name + rest, 0) == Some(ENTITIES[i])
  {
    EntityFrom(i, 0, rest);
  }

  lemma NamesDiffer(i: nat, k: nat, rest: string)
    requires k < i < |ENTITIES|
    ensures !Starts(ENTITIES[i].name + rest, ENTITIES[k].name)
  {
    hide Starts;
    var s := ENTITIES[i].name + rest;
    StartsAt(s, ENTITIES[k].name, 0);
    StartsAt(s, ENTITIES[k].name, 1);
    assert At(s, 0) == At(ENTITIES[i].name, 0) && At(s, 1) == At(ENTITIES[i].name, 1);
  }

  lemma {:induction false} EntityFrom(i: nat, k: nat, rest: string)
    requires k <= i < |ENTITIES|
    ensures FindEntity(ENTITIES[i].name + rest, k) == Some(ENTITIES[i])
    decreases i - k
  {
    hide Starts;
    if k == i {
      StartsWithName(ENTITIES[i].name, rest);
    } else {
      NamesDiffer(i, k, rest);
      EntityFrom(i, k + 1, rest);
    }
  }

  lemma StartsWithName(name: string, rest: string)
    ensures Starts(name + rest, name) && Behind(name + rest, name) == rest
  {
  }

  lemma StripGlyph(p: Piece, rest: string, out: string, cap: nat)
    requires p.Glyph? && ValidPiece(p) && |out| < cap
    ensures Strip(p.written + rest, out, cap) == Strip(rest, out + [p.shown], cap)
  {
    hide FindEntity, Behind;
    if p.written == [p.shown] && p.shown != '<' && p.shown != '&' {
      assert (p.written + rest)[1..] == rest;
    } else {
      var i :| 0 <= i < |ENTITIES| && p.written == "&" + ENTITIES[i].name && p.shown == ENTITIES[i].shown;
      assert (p.written + rest)[1..] == ENTITIES[i].name + rest;
      EntityFound(i, rest);
      StartsWithName(ENTITIES[i].name, rest);
    }
  }

  lemma {:induction false} StripShows(ps: seq<Piece>, out: string, cap: nat)
    requires ValidPieces(ps) && |out| <= cap
    ensures Strip(Markup(ps), out, cap) == Take(Show(ps, out), cap)
  {
    hide Strip, ValidPiece, Written;
    if ps == [] || |out| == cap {
      StripStops(Markup(ps), out, cap);
    } else {
      var p, more := ps[0], ps[1..];
      assert ValidPieces(more);
      if p.Tag? {
        assert '>' !in p.name by { TagIsValid(p); }
        StripTag(p.name, Markup(more), out, cap);
      } else {
        StripGlyph(p, Markup(more), out, cap);
        assert Written(p) == p.written by { GlyphIsWritten(p); }
      }
      StripShows(more, ShowOne(p, out), cap);
    }
  }

  lemma TagIsValid(p: Piece)
    requires p.Tag? && ValidPiece(p)
    ensures '>' !in p.name
  {
  }

  lemma GlyphIsWritten(p: Piece)
    requires p.Glyph?
    ensures Written(p) == p.written
  {
  }

  lemma StripStops(s: string, out: string, cap: nat)
    requires s == "" || |out| >= cap
    ensures Strip(s, out, cap) == out
  {
  }

  /** Stripping a document shows it, cut only by the buffer, without the blanks at its end. */
  lemma StripIsShow(ps: seq<Piece>, dstlen: nat)
    requires ValidPieces(ps) && dstlen >= 1
    ensures HtmlStrip(Markup(ps), dstlen) == Trim(Take(Show(ps, ""), dstlen - 1))
  {
    hide Strip, ValidPieces, Markup, Show;
    StripShows(ps, "", dstlen - 1);
  }

  // ---- plain text as markup ----

  /** A character of plain text as a careful producer writes it. */
  function WriteChar(c: char): string {
    if c == '&' then "&amp;" else if c == '<' then "&lt;" else if c == '>' then "&gt;"
    else if c == '\"' then "&quot;" else if c == '\'' then "&#39;" else [c]
  }

  function EscapeHtml(t: string): string { if t == "" then "" else WriteChar(t[0]) + EscapeHtml(t[1..]) }

  /** The pieces an escaped text is made of. */
  function Glyphs(t: string): seq<Piece> { if t == "" then [] else [Glyph(t[0], WriteChar(t[0]))] + Glyphs(t[1..]) }

  lemma GlyphIsValid(c: char)
    ensures ValidPiece(Glyph(c, WriteChar(c)))
  {
    var i := if c == '&' then 0 else if c == '<' then 1 else if c == '>' then 2 else if c == '\"' then 3 else 5;
    if c == '&' || c == '<' || c == '>' || c == '\"' || c == '\'' {
      assert WriteChar(c) == "&" + ENTITIES[i].name && c == ENTITIES[i].shown;
    }
  }

  lemma {:induction false} GlyphsAreText(t: string, out: string)
    ensures ValidPieces(Glyphs(t)) && Markup(Glyphs(t)) == EscapeHtml(t) && Show(Glyphs(t), out) == out + t
  {
    hide ValidPiece, WriteChar;
    if t == "" {
      assert out + t == out;
    } else {
      var g := Glyph(t[0], WriteChar(t[0]));
      GlyphIsValid(t[0]);
      GlyphsAreText(t[1..], out + [t[0]]);
      OnePiece(g, Glyphs(t[1..]), out);
      Assoc(out, [t[0]], t[1..]);
      assert t == [t[0]] + t[1..];
    }
  }

  lemma OnePiece(g: Piece, more: seq<Piece>, out: string)
    requires g.Glyph? && ValidPiece(g) && ValidPieces(more)
    ensures ValidPieces([g] + more)
    ensures Markup([g] + more) == g.written + Markup(more) && Show([g] + more, out) == Show(more, out + [g.shown])
  {
    hide ValidPiece;
    assert ([g] + more)[1..] == more;
  }

  /** Plain text, escaped, comes back without its trailing blanks. */
  lemma EscapedTextComesBack(t: string, dstlen: nat)
    requires dstlen >= 1 && |t| < dstlen
    ensures HtmlStrip(EscapeHtml(t), dstlen) == Trim(t)
  {
    hide Markup, Show, ValidPieces, Glyphs, EscapeHtml, HtmlStrip;
    GlyphsAreText(t, "");
    StripIsShow(Glyphs(t), dstlen);
    assert "" + t == t;
  }

  // ---- status objects ----

  datatype Entry = Entry(acct: string, name: string, text: string, boost: bool)

  /** `parse_status`. */
  function ParseStatus(obj: string, acctlen: nat, namelen: nat, textlen: nat): Entry
    requires textlen >= 1
  {
    var boosted := SpanCopy(obj, "reblog", OBJBUF);
    var target := if boosted.Some? then boosted.value else obj;
    var account := SpanCopy(target, "account", ACCOBJBUF);
    Entry(if account.Some? then GetStringOrEmpty(account.value, "acct", acctlen) else "",
          if account.Some? then GetStringOrEmpty(account.value, "display_name", namelen) else "",
          HtmlStrip(GetStringOrEmpty(target, "content", CONTENTBUF), textlen),
          boosted.Some?)
  }

  /** A status with its own account and text, all within the buffers. */
  predicate Plain(j: Json, st: Style, acct: string, name: string, doc: seq<Piece>, acctlen: nat, namelen: nat) {
    && Valid(j) && ValidPieces(doc) && HasText(j, "content", Markup(doc), CONTENTBUF)
    && match FirstKey(j, "account")
       case Some(a) => a.Obj? && |Print(a, st)| < ACCOBJBUF && HasText(a, "acct", acct, acctlen)
           && HasText(a, "display_name", name, namelen)
       case None => false
  }

  lemma StatusKeys()
    ensures SearchKey("reblog") && SearchKey("account") && SearchKey("content") && SearchKey("acct")
            && SearchKey("display_name")
  {
  }

  lemma ReadPlain(j: Json, st: Style, acct: string, name: string, doc: seq<Piece>, acctlen: nat, namelen: nat,
      textlen: nat)
    requires st.Valid() && textlen >= 1 && Plain(j, st, acct, name, doc, acctlen, namelen)
    ensures var t, a := Print(j, st), SpanCopy(Print(j, st), "account", ACCOBJBUF);
            && a.Some? && GetStringOrEmpty(a.value, "acct", acctlen) == acct
            && GetStringOrEmpty(a.value, "display_name", namelen) == name
            && HtmlStrip(GetStringOrEmpty(t, "content", CONTENTBUF), textlen) == Trim(Take(Show(doc, ""), textlen - 1))
  {
    StatusKeys();
    hide Valid, Print, FirstKey, GetString, GetStringOrEmpty, HasText, HtmlStrip, Markup, Show, ValidPieces,
        SearchKey, RawSpan;
    var a := FirstKey(j, "account").value;
    FirstKeyValid(j, "account");
    LookupSpan(j, "account", st);
    ReadsText(a, "acct", acct, st, acctlen);
    ReadsText(a, "display_name", name, st, namelen);
    ReadsText(j, "content", Markup(doc), st, CONTENTBUF);
    StripIsShow(doc, textlen);
  }

  /**
   A timeline entry: for a boost the boosted status's author and text, otherwise the status's own; the text is
   what its HTML shows.  `reblog` is null or absent in a status that is no boost.
   */
  lemma EntryIsShown(j: Json, inner: Json, st: Style, acct: string, name: string, doc: seq<Piece>, acctlen: nat,
      namelen: nat, textlen: nat)
    requires Valid(j) && st.Valid() && textlen >= 1 && Plain(inner, st, acct, name, doc, acctlen, namelen)
    requires match FirstKey(j, "reblog")
             case None => inner == j
             case Some(v) => if v.Lit? then inner == j else v.Obj? && inner == v && |Print(v, st)| < OBJBUF
    ensures ParseStatus(Print(j, st), acctlen, namelen, textlen)
         == Entry(acct, name, Trim(Take(Show(doc, ""), textlen - 1)),
                  FirstKey(j, "reblog").Some? && FirstKey(j, "reblog").value.Obj?)
  {
    StatusKeys();
    hide Valid, Print, FirstKey, GetString, GetStringOrEmpty, HtmlStrip, Show, Plain, SearchKey, RawSpan, Trim;
    LookupSpan(j, "reblog", st);
    ReadPlain(inner, st, acct, name, doc, acctlen, namelen, textlen);
  }

  // ---- the C functions ----

  lemma StripStep(s: string, out: string, cap: nat)
    requires s != "" && |out| < cap
    ensures Strip(s, out, cap)
         == if s[0] == '<' then
              match CloseAt(s)
              case None => out
              case Some(k) => Strip(s[k + 1..], if LineTag(s[1..k]) then Broken(out) else out, cap)
            else if s[0] == '&' then
              match FindEntity(s[1..], 0)
              case Some(e) => Strip(Behind(s[1..], e.name), out + [e.shown], cap)
              case None => Strip(s[1..], out + "&", cap)
            else Strip(s[1..], out + [s[0]], cap)
  {
    hide LineTag, Broken, FindEntity, Behind;
  }

  /** `dst[o++] = c`. */
  method Put(dst: array<char>, o: nat, c: char) returns (n: nat)
    requires o < dst.Length
    modifies dst
    ensures n == o + 1 && dst[..n] == old(dst[..o]) + [c]
  {
    dst[o] := c;
    n := o + 1;
  }

  /** `html_strip`. */
  method HtmlStripInto(dst: array<char>, src: string) returns (o: nat)
    requires dst.Length >= 1
    modifies dst
    ensures o < dst.Length && dst[o] == '\0' && dst[..o] == HtmlStrip(src, dst.Length)
  {
    hide Strip, LineTag, FindEntity, Behind, CloseAt, Trim;
    var p := src;
    o := 0;
    while p != "" && o < dst.Length - 1
      invariant o < dst.Length && Strip(p, dst[..o], dst.Length - 1) == Strip(src, "", dst.Length - 1)
      decreases |p|
    {
      StripStep(p, dst[..o], dst.Length - 1);
      if p[0] == '<' {
        var close := CloseAt(p);
        if close == None {
          StripStops("", dst[..o], dst.Length - 1);
          p := "";
          break;
        }
        if LineTag(p[1..close.value]) && (o == 0 || dst[o - 1] != '\n') {
          o := Put(dst, o, '\n');
        }
        p := p[close.value + 1..];
      } else if p[0] == '&' {
        var e := FindEntity(p[1..], 0);
        if e.Some? {
          o := Put(dst, o, e.value.shown);
          p := Behind(p[1..], e.value.name);
        } else {
          o := Put(dst, o, '&');
          p := p[1..];
        }
      } else {
        o := Put(dst, o, p[0]);
        p := p[1..];
      }
    }
    StripStops(p, dst[..o], dst.Length - 1);
    o := TrimEnd(dst, o);
  }

  /** The final loop: the terminator moves back over blanks. */
  method TrimEnd(dst: array<char>, n: nat) returns (o: nat)
    requires n < dst.Length
    modifies dst
    ensures o <= n && dst[o] == '\0' && dst[..o] == Trim(old(dst[..n]))
  {
    o := n;
    ghost var all := dst[..n];
    dst[o] := '\0';
    while o > 0 && Blank(dst[o - 1])
      invariant o <= n && dst[o] == '\0' && dst[..o] == all[..o] && Trim(all[..o]) == Trim(all)
    {
      assert all[..o][..o - 1] == all[..o - 1];
      o := o - 1;
      dst[o] := '\0';
    }
  }

  /** `parse_status`. */
  method ParseStatusInto(obj: string, acctlen: nat, namelen: nat, textlen: nat) returns (e: Entry)
    requires acctlen >= 1 && namelen >= 1 && textlen >= 1
    ensures e == ParseStatus(obj, acctlen, namelen, textlen)
  {
    hide SpanCopy, GetStringOrEmpty, HtmlStrip, GetString;
    var boosted := CopySpan(obj, "reblog", OBJBUF);
    var target := if boosted.Some? then boosted.value else obj;
    var acct, name, ok := "", "", false;
    var account := CopySpan(target, "account", ACCOBJBUF);
    if account.Some? {
      ok, acct := ReadString(account.value, "acct", acctlen);
      ok, name := ReadString(account.value, "display_name", namelen);
    }
    var raw;
    ok, raw := ReadString(target, "content", CONTENTBUF);
    var text := new char[textlen];
    var n := HtmlStripInto(text, raw);
    e := Entry(acct, name, text[..n], boosted.Some?);
  }
}
