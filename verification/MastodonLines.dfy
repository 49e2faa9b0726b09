/**
 Which tags break a line of a stripped status, and what that makes of its paragraphs; and the entities by name.
 */
module MastodonLines {
  import opened Wrappers
  import opened Bytes
  import opened CText
  import opened MastodonStatus

  // ---- tags ----

  /** The same letters in either case. */
  predicate SameLetters(s: string, t: string) {
    && |s| == |t|
    && forall i :: 0 <= i < |s| ==> s[i] == t[i] || ('a' <= t[i] <= 'z' && s[i] as int + 32 == t[i] as int)
  }

  predicate Breaking(tag: string) {
    SameLetters(tag, "br") || SameLetters(tag, "br/") || SameLetters(tag, "/p") || SameLetters(tag, "/blockquote")
  }

  lemma {:induction false} LowerLength(s: string)
    ensures |LowerAll(s)| == |s| && forall i :: 0 <= i < |s| ==> LowerAll(s)[i] == Lower(s[i])
  {
    if s != "" {
      LowerLength(s[1..]);
      assert forall i :: 1 <= i < |s| ==> LowerAll(s)[i] == LowerAll(s[1..])[i - 1] && s[1..][i - 1] == s[i];
    }
  }

  lemma LowerIs(s: string, t: string)
    requires forall i :: 0 <= i < |t| ==> !('A' <= t[i] <= 'Z')
    ensures LowerAll(s) == t <==> SameLetters(s, t)
  {
    LowerLength(s);
    hide LowerAll;
    if SameLetters(s, t) { assert LowerAll(s) == t; }
  }

  /** The tags that end a line, in letters of either case, and no others; a blank before the slash is one too many. */
  lemma LineTagIff(tag: string)
    ensures LineTag(tag) <==> Breaking(tag)
    ensures !LineTag("br /")
  {
    LineTagOf(tag);
    LineTagOf("br /");
    SpacedBreak();
    hide LineTag, Breaking;
  }

  lemma SpacedBreak()
    ensures !Breaking("br /")
  {
    assert |"br /"| == 4 && |"br"| == 2 && |"br/"| == 3 && |"/p"| == 2 && |"/blockquote"| == 11;
  }

  lemma LineTagOf(tag: string)
    ensures LineTag(tag) <==> Breaking(tag)
  {
    var t := Take(tag, 15);
    hide LowerAll, SameLetters;
    LowerIs(t, "br");
    LowerIs(t, "br/");
    LowerIs(t, "/p");
    LowerIs(t, "/blockquote");
    if |tag| > 15 {
      LongTag(tag);
      LongTag(t);
    } else {
      assert t == tag;
    }
  }

  lemma LongTag(tag: string)
    requires |tag| >= 15
    ensures !Breaking(tag) && !SameLetters(tag, "br") && !SameLetters(tag, "br/") && !SameLetters(tag, "/p")
            && !SameLetters(tag, "/blockquote")
  {
    assert |"br"| == 2 && |"br/"| == 3 && |"/p"| == 2 && |"/blockquote"| == 11;
  }

  lemma {:induction false} ShowSnoc(ps: seq<Piece>, p: Piece, out: string)
    ensures Show(ps + [p], out) == ShowOne(p, Show(ps, out))
  {
    hide ShowOne;
    if ps == [] {
      assert ps + [p] == [p] && [p][1..] == [];
    } else {
      assert (ps + [p])[1..] == ps[1..] + [p];
      ShowSnoc(ps[1..], p, ShowOne(ps[0], out));
    }
  }

  /** A breaking tag ends the line that is open, and nothing else; any other tag shows nothing. */
  lemma TagShows(ps: seq<Piece>, tag: string)
    ensures var shown, more := Show(ps, ""), Show(ps + [Tag(tag)], "");
            && (Breaking(tag) && (shown == "" || shown[|shown| - 1] != '\n') ==> more == shown + "\n")
            && (!Breaking(tag) || (shown != "" && shown[|shown| - 1] == '\n') ==> more == shown)
  {
    ShowSnoc(ps, Tag(tag), "");
    LineTagIff(tag);
    hide LineTag, Breaking, Show;
  }

  /** A character shows itself. */
  lemma GlyphShows(ps: seq<Piece>, c: char, written: string)
    ensures Show(ps + [Glyph(c, written)], "") == Show(ps, "") + [c]
  {
    ShowSnoc(ps, Glyph(c, written), "");
  }

  // ---- paragraphs ----

  /** Text of one paragraph. */
  predicate Paragraph(t: string) { t != "" && t[|t| - 1] != '\n' }

  function Html(parts: seq<string>): string {
    if parts == [] then "" else "<p>" + (EscapeHtml(parts[0]) + ("</p>" + Html(parts[1..])))
  }

  function Document(parts: seq<string>): seq<Piece> {
    if parts == [] then [] else [Tag("p")] + (Glyphs(parts[0]) + ([Tag("/p")] + Document(parts[1..])))
  }

  /** The paragraphs one a line. */
  function OnLines(parts: seq<string>): string {
    if parts == [] then "" else parts[0] + ("\n" + OnLines(parts[1..]))
  }

  lemma {:induction false} ShowAppend(a: seq<Piece>, b: seq<Piece>, out: string)
    ensures Show(a + b, out) == Show(b, Show(a, out))
    ensures Markup(a + b) == Markup(a) + Markup(b)
  {
    hide ShowOne, Written;
    if a == [] {
      assert a + b == b;
    } else {
      assert (a + b)[1..] == a[1..] + b;
      ShowAppend(a[1..], b, ShowOne(a[0], out));
      Assoc(Written(a[0]), Markup(a[1..]), Markup(b));
    }
  }

  lemma ValidAppend(a: seq<Piece>, b: seq<Piece>)
    requires ValidPieces(a) && ValidPieces(b)
    ensures ValidPieces(a + b)
  {
    hide ValidPiece;
  }

  /** One tag by itself. */
  lemma OneTag(name: string, out: string)
    requires '>' !in name
    ensures ValidPieces([Tag(name)]) && Markup([Tag(name)]) == "<" + (name + ">")
    ensures Show([Tag(name)], out) == ShowOne(Tag(name), out)
  {
    var one := [Tag(name)];
    assert one[1..] == [] && Markup(one) == Written(one[0]) + "";
  }

  lemma ParagraphTags(out: string)
    ensures !LineTag("p") && LineTag("/p") && Written(Tag("p")) == "<p>" && Written(Tag("/p")) == "</p>"
    ensures ShowOne(Tag("p"), out) == out
    ensures out != "" && out[|out| - 1] != '\n' ==> ShowOne(Tag("/p"), out) == out + "\n"
  {
    LineTagIff("p");
    LineTagIff("/p");
    assert SameLetters("/p", "/p");
    assert |"p"| == 1 && |"br"| == 2 && |"br/"| == 3 && |"/p"| == 2 && |"/blockquote"| == 11;
    hide LineTag;
  }

  /** One paragraph and what follows it. */
  lemma ParagraphShows(t: string, more: seq<Piece>, out: string)
    requires Paragraph(t) && ValidPieces(more)
    ensures var ps := [Tag("p")] + (Glyphs(t) + ([Tag("/p")] + more));
            && ValidPieces(ps) && Markup(ps) == "<p>" + (EscapeHtml(t) + ("</p>" + Markup(more)))
            && Show(ps, out) == Show(more, (out + t) + "\n")
  {
    hide ShowOne, Written, Show, Markup, ValidPieces, Glyphs, EscapeHtml;
    ParagraphEnds(t, more, out);
    var rest := Glyphs(t) + ([Tag("/p")] + more);
    assert '>' !in "p";
    OneTag("p", out);
    ParagraphTags(out);
    ValidAppend([Tag("p")], rest);
    ShowAppend([Tag("p")], rest, out);
  }

  lemma ParagraphEnds(t: string, more: seq<Piece>, out: string)
    requires Paragraph(t) && ValidPieces(more)
    ensures var ps := Glyphs(t) + ([Tag("/p")] + more);
            && ValidPieces(ps) && Markup(ps) == EscapeHtml(t) + ("</p>" + Markup(more))
            && Show(ps, out) == Show(more, (out + t) + "\n")
  {
    hide ShowOne, Written, Show, Markup, ValidPieces, Glyphs, EscapeHtml;
    var close: seq<Piece> := [Tag("/p")];
    assert '>' !in "/p";
    OneTag("/p", out + t);
    ParagraphTags(out + t);
    GlyphsAreText(t, out);
    ValidAppend(close, more);
    ValidAppend(Glyphs(t), close + more);
    ShowAppend(close, more, out + t);
    ShowAppend(Glyphs(t), close + more, out);
  }

  lemma {:induction false} DocumentShows(parts: seq<string>, out: string)
    requires forall i :: 0 <= i < |parts| ==> Paragraph(parts[i])
    ensures ValidPieces(Document(parts)) && Markup(Document(parts)) == Html(parts)
    ensures Show(Document(parts), out) == out + OnLines(parts)
  {
    hide Show, Markup, ValidPieces, Glyphs, EscapeHtml, Paragraph;
    if parts == [] {
      NoPieces(out);
    } else {
      var t, next := parts[0], (out + parts[0]) + "\n";
      DocumentShows(parts[1..], next);
      ParagraphShows(t, Document(parts[1..]), out);
      Assoc(out, t, "\n" + OnLines(parts[1..]));
      Assoc(out + t, "\n", OnLines(parts[1..]));
    }
  }

  lemma NoPieces(out: string)
    ensures ValidPieces([]) && Markup([]) == "" && Show([], out) == out && out + "" == out
  {
  }

  /** A status of paragraphs is shown with each of them on a line of its own. */
  lemma ParagraphsAreLines(parts: seq<string>, dstlen: nat)
    requires forall i :: 0 <= i < |parts| ==> Paragraph(parts[i])
    requires |OnLines(parts)| < dstlen
    ensures HtmlStrip(Html(parts), dstlen) == Trim(OnLines(parts))
  {
    DocumentShows(parts, "");
    hide Show, Markup, ValidPieces, Document, HtmlStrip, Trim;
    StripIsShow(Document(parts), dstlen);
    assert "" + OnLines(parts) == OnLines(parts);
  }

  // ---- entities ----

  const NAMED: map<string, char> :=
    map["amp;" := '&', "lt;" := '<', "gt;" := '>', "quot;" := '\"', "apos;" := '\'', "#39;" := '\'', "nbsp;" := ' ']

  lemma EntityNames(name: string)
    requires name in NAMED
    ensures exists i :: 0 <= i < |ENTITIES| && ENTITIES[i].name == name && ENTITIES[i].shown == NAMED[name]
  {
    var i := if name == "amp;" then 0 else if name == "lt;" then 1 else if name == "gt;" then 2
      else if name == "quot;" then 3 else if name == "apos;" then 4 else if name == "#39;" then 5 else 6;
    assert ENTITIES[i].name == name;
  }

  /** A known name after an ampersand, semicolon included, shows its character. */
  lemma EntityShows(name: string, rest: string, out: string, cap: nat)
    requires name in NAMED && |out| < cap
    ensures Strip("&" + name + rest, out, cap) == Strip(rest, out + [NAMED[name]], cap)
  {
    EntityNames(name);
    var i :| 0 <= i < |ENTITIES| && ENTITIES[i].name == name && ENTITIES[i].shown == NAMED[name];
    hide Strip, NAMED, ENTITIES;
    var p := Glyph(NAMED[name], "&" + name);
    EntityIsGlyph(i, p);
    StripGlyph(p, rest, out, cap);
  }

  lemma EntityIsGlyph(i: nat, p: Piece)
    requires i < |ENTITIES| && p == Glyph(ENTITIES[i].shown, "&" + ENTITIES[i].name)
    ensures ValidPiece(p)
  {
  }

  /** Any other ampersand stays. */
  lemma AmpersandStays(rest: string, out: string, cap: nat)
    requires |out| < cap && forall name :: name in NAMED ==> !Starts(rest, name)
    ensures Strip("&" + rest, out, cap) == Strip(rest, out + "&", cap)
  {
    var s := "&" + rest;
    assert s[1..] == rest;
    NoEntity(rest, 0);
    hide FindEntity, Starts, NAMED, ENTITIES;
  }

  lemma {:induction false} NoEntity(rest: string, i: nat)
    requires i <= |ENTITIES| && forall name :: name in NAMED ==> !Starts(rest, name)
    ensures FindEntity(rest, i) == None
    decreases |ENTITIES| - i
  {
    if i < |ENTITIES| {
      assert ENTITIES[i].name in NAMED;
      NoEntity(rest, i + 1);
    }
  }
}
