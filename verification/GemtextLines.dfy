/**
 Every kind of text/gemini line, in its own letters: what a reader sees of a heading, a list item, a quote, a link,
 a fence, and of everything else (the sections on line types of the gemtext format).
 */
module GemtextLines {
  import opened Bytes
  import opened CText
  import opened Numbers
  import opened Gemtext

  // ---- cutting a text into lines ----

  /** Lines with their ends: a line feed, with or without a carriage return before it. */
  function Text(lines: seq<string>, ends: seq<string>): string
    requires |lines| == |ends|
  {
    if lines == [] then "" else lines[0] + (ends[0] + Text(lines[1..], ends[1..]))
  }

  /** What fits the line buffer and holds no end of its own. */
  predicate Line(s: string) { |s| + 2 < LINE_MAX && '\n' !in s && (s == "" || s[|s| - 1] != '\r') }

  predicate TextLines(lines: seq<string>, ends: seq<string>) {
    && |lines| == |ends|
    && (forall i :: 0 <= i < |lines| ==> Line(lines[i]))
    && (forall i :: 0 <= i < |ends| ==> ends[i] == "\n" || ends[i] == "\r\n")
  }

  lemma {:induction false} LineIsCut(s: string, rest: string)
    requires '\n' !in s
    ensures LineLen(s + ("\n" + rest)) == |s| && LineLen(s) == |s|
  {
    var t := s + ("\n" + rest);
    if s != "" {
      assert t[1..] == s[1..] + ("\n" + rest) && s[0] in s;
      LineIsCut(s[1..], rest);
    }
  }

  lemma OneLine(s: string, end: string, rest: string)
    requires Line(s) && (end == "\n" || end == "\r\n")
    ensures LineAt(s + (end + rest)) == s && AfterLine(s + (end + rest)) == rest
  {
    hide Line, LineAt, AfterLine;
    if end == "\n" { FedLine(s, rest); } else { ReturnedLine(s, rest); }
  }

  lemma FedLine(s: string, rest: string)
    requires Line(s)
    ensures LineAt(s + ("\n" + rest)) == s && AfterLine(s + ("\n" + rest)) == rest
  {
    hide LineLen;
    var t := s + ("\n" + rest);
    LineIsCut(s, rest);
    assert t[..|s|] == s && t[|s| + 1..] == rest;
  }

  lemma ReturnedLine(s: string, rest: string)
    requires Line(s)
    ensures LineAt(s + ("\r\n" + rest)) == s && AfterLine(s + ("\r\n" + rest)) == rest
  {
    hide LineLen;
    var r := s + "\r";
    var t := r + ("\n" + rest);
    assert s + ("\r\n" + rest) == t;
    LineIsCut(r, rest);
    assert t[..|r|] == r && t[|r| + 1..] == rest && r[..|s|] == s;
  }

  lemma LastLine(s: string)
    requires Line(s) && s != ""
    ensures LineAt(s) == s && AfterLine(s) == ""
  {
    hide LineLen;
    LineIsCut(s, "");
    assert s[..|s|] == s;
  }

  /** A text is cut at its line ends, of either kind; a last line needs none. */
  lemma {:induction false} LinesAreCut(lines: seq<string>, ends: seq<string>, last: string)
    requires TextLines(lines, ends) && Line(last)
    ensures Lines(Text(lines, ends) + last) == lines + (if last == "" then [] else [last])
  {
    hide LineAt, AfterLine, Line;
    if lines == [] {
      assert Text(lines, ends) + last == last;
      if last != "" { LastLine(last); }
      assert last != "" ==> Lines(last) == [last] + [];
    } else {
      var more := Text(lines[1..], ends[1..]);
      var t := Text(lines, ends) + last;
      Assoc(lines[0], ends[0] + more, last);
      Assoc(ends[0], more, last);
      assert t == lines[0] + (ends[0] + (more + last));
      OneLine(lines[0], ends[0], more + last);
      LinesAreCut(lines[1..], ends[1..], last);
      assert t != "" && lines == [lines[0]] + lines[1..];
    }
  }

  // ---- one line ----

  /** A text without blanks at its front. */
  predicate Flush(t: string) { t == "" || (t[0] != ' ' && t[0] != '\t') }

  function Hashes(n: nat): string { seq(n, _ => '#') }

  lemma {:induction false} HashesRead(n: nat, t: string)
    requires t == "" || t[0] != '#'
    ensures HashRun(Hashes(n) + t) == n && (Hashes(n) + t)[n..] == t
  {
    var s := Hashes(n) + t;
    if n == 0 {
      assert s == t;
    } else {
      assert s[1..] == Hashes(n - 1) + t;
      HashesRead(n - 1, t);
    }
  }

  lemma FirstIs(s: string, pat: string)
    requires |pat| == 1
    ensures Starts(s, pat) <==> s != "" && s[0] == pat[0]
  {
    if s != "" { assert s[..1] == [s[0]] && pat == [pat[0]]; }
  }

  lemma NotFenceNorLink(s: string)
    requires s == "" || s[0] != '`'
    ensures !IsFence(s) && (s == "" || s[0] != '=' ==> !Starts(s, "=>"))
  {
    StartsAt(s, "```", 0);
    StartsAt(s, "=>", 0);
  }

  /** A heading by its level; more than three marks count as three. */
  lemma Heading(n: nat, blanks: string, t: string, number: nat)
    requires n > 0 && OnlyBlanks(blanks) && Flush(t) && (blanks == "" ==> t == "" || t[0] != '#')
    ensures LineText(Hashes(n) + (blanks + t), false, number)
         == if n == 1 then "\n=== " + t + " ===\n" else if n == 2 then "\n-- " + t + " --\n" else "  . " + t + "\n"
  {
    var line := Hashes(n) + (blanks + t);
    HashesRead(n, blanks + t);
    SkipBlankOver(blanks, t);
    NotFenceNorLink(line);
    FirstIs(line, "#");
    hide IsFence, SkipBlank, Starts, HashRun, Hashes;
    assert line[0] == '#';
  }

  /** A list item: a star and then a blank, or a star alone. */
  lemma Item(blanks: string, t: string, number: nat)
    requires OnlyBlanks(blanks) && Flush(t) && (blanks == "" ==> t == "")
    ensures LineText("*" + (blanks + t), false, number) == "  * " + t + "\n"
  {
    var line := "*" + (blanks + t);
    assert line[1..] == blanks + t;
    SkipBlankOver(blanks, t);
    NotFenceNorLink(line);
    FirstIs(line, "#");
    FirstIs(line, "*");
    hide IsFence, SkipBlank, Starts;
  }

  lemma Quote(blanks: string, t: string, number: nat)
    requires OnlyBlanks(blanks) && Flush(t)
    ensures LineText(">" + (blanks + t), false, number) == "  | " + t + "\n"
  {
    var line := ">" + (blanks + t);
    assert line[1..] == blanks + t;
    SkipBlankOver(blanks, t);
    NotFenceNorLink(line);
    FirstIs(line, "#");
    FirstIs(line, "*");
    FirstIs(line, ">");
    hide IsFence, SkipBlank, Starts;
  }

  /** Any other line is shown as it is: no mark in front, or a star without a blank after it. */
  lemma PlainLine(line: string, number: nat)
    requires line == "" || line[0] !in {'#', '*', '>', '`', '='}
             || (line[0] == '*' && |line| > 1 && line[1] != ' ' && line[1] != '\t')
             || (line[0] == '=' && (|line| == 1 || line[1] != '>'))
             || (line[0] == '`' && (|line| < 3 || line[1] != '`' || line[2] != '`'))
    ensures LineText(line, false, number) == line + "\n"
  {
    StartsAt(line, "```", 0);
    StartsAt(line, "```", 1);
    StartsAt(line, "```", 2);
    StartsAt(line, "=>", 0);
    StartsAt(line, "=>", 1);
    FirstIs(line, "#");
    FirstIs(line, "*");
    FirstIs(line, ">");
    hide Starts;
  }

  /** A fence opens a block with its own text as a title, and closes it. */
  lemma Fence(blanks: string, t: string, number: nat)
    requires OnlyBlanks(blanks) && Flush(t)
    ensures var line := "```" + (blanks + t);
            && IsFence(line)
            && LineText(line, false, number) == (if t == "" then "---- pre ----\n" else "---- pre: " + t + " ----\n")
            && LineText(line, true, number) == "---- /pre ----\n"
  {
    var line := "```" + (blanks + t);
    assert line[..3] == "```" && line[3..] == blanks + t;
    SkipBlankOver(blanks, t);
    hide SkipBlank;
  }

  /** Inside a block a line that is no fence is shown as it is. */
  lemma Verbatim(line: string, number: nat)
    ensures |line| < 3 || line[..3] != "```" ==> LineText(line, true, number) == line + "\n"
  {
  }

  // ---- links ----

  predicate Address(url: string) { |url| < LINKURL_MAX && ' ' !in url && '\t' !in url }

  lemma {:induction false} UrlRead(url: string, rest: string, room: nat)
    requires ' ' !in url && '\t' !in url && |url| <= room && (rest == "" || rest[0] == ' ' || rest[0] == '\t')
    ensures UrlLen(url + rest, room) == |url|
  {
    if url == "" {
      assert url + rest == rest;
    } else {
      assert (url + rest)[1..] == url[1..] + rest && url[0] in url;
      UrlRead(url[1..], rest, room - 1);
    }
  }

  lemma LinkParts(blanks: string, url: string, rest: string)
    requires OnlyBlanks(blanks) && Address(url) && (rest == "" || rest[0] == ' ' || rest[0] == '\t')
    requires url == "" ==> rest == ""
    ensures var line := "=>" + (blanks + (url + rest));
            && LinkUrl(line) == url && LinkTail(line)[UrlLen(LinkTail(line), LINKURL_MAX - 1)..] == rest
  {
    var line := "=>" + (blanks + (url + rest));
    assert line[2..] == blanks + (url + rest);
    assert url + rest == "" || (url + rest)[0] == url[0];
    assert url != "" ==> url[0] in url;
    SkipBlankOver(blanks, url + rest);
    UrlRead(url, rest, LINKURL_MAX - 1);
    hide SkipBlank, UrlLen;
    assert (url + rest)[..|url|] == url && (url + rest)[|url|..] == rest;
  }

  lemma LinkLine(line: string)
    requires |line| >= 2 && line[..2] == "=>"
    ensures !IsFence(line) && Starts(line, "=>")
  {
    assert line[0] == line[..2][0];
    StartsAt(line, "```", 0);
  }

  /** A link: its number, then its label, or its address if it has none; a link to nothing is not shown. */
  lemma Link(blanks: string, url: string, gap: string, title: string, number: nat)
    requires OnlyBlanks(blanks) && Address(url) && OnlyBlanks(gap) && Flush(title)
    requires (gap == "" ==> title == "") && (url == "" ==> gap + title == "")
    ensures var line := "=>" + (blanks + (url + (gap + title)));
            && (IsLink(line) <==> url != "") && LinkUrl(line) == url
            && LineText(line, false, number)
               == if url == "" then ""
                  else "[" + PrintNat(number, 10) + "] " + (if title == "" then url else title) + "\n"
  {
    var rest := gap + title;
    var line := "=>" + (blanks + (url + rest));
    assert line[..2] == "=>";
    LinkLine(line);
    LinkParts(blanks, url, rest);
    SkipBlankOver(gap, title);
    hide SkipBlank, UrlLen, Starts, IsFence, PrintNat, LinkUrl, LinkTail;
  }
}
