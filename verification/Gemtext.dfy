/**
 The text/gemini renderer of gemini.c: a loop over lines with a preformat flag and a table of numbered links.

 The reference reads each line on its own: whether it is inside a preformatted block is the parity of the
 fences before it, and the number of a link line is one more than the links before it.
 */
module Gemtext {
  import opened Bytes
  import opened CText
  import opened Numbers

  const LINE_MAX := 4096
  const LINKURL_MAX := 600

  // ---- lines ----

  function LineLen(s: string): (n: nat)
    ensures n <= |s|
    ensures n < |s| ==> s[n] == '\n'
  {
    if s == "" || s[0] == '\n' then 0 else 1 + LineLen(s[1..])
  }

  function ChopCr(s: string): string {
    if s != "" && s[|s| - 1] == '\r' then s[..|s| - 1] else s
  }

  /** The line `gem_next_line` copies: cut to the buffer, then freed of a final CR. */
  function LineAt(s: string): string { ChopCr(Take(s[..LineLen(s)], LINE_MAX - 1)) }

  function AfterLine(s: string): (r: string)
    requires s != ""
    ensures |r| < |s|
  {
    if LineLen(s) < |s| then s[LineLen(s) + 1..] else ""
  }

  function Lines(s: string): seq<string>
    decreases |s|
  {
    if s == "" then [] else [LineAt(s)] + Lines(AfterLine(s))
  }

  // ---- one line ----

  predicate IsFence(line: string) { Starts(line, "```") }

  function UrlLen(s: string, room: nat): (n: nat)
    ensures n <= |s| && n <= room
  {
    if room == 0 || s == "" || s[0] == ' ' || s[0] == '\t' then 0 else 1 + UrlLen(s[1..], room - 1)
  }

  function LinkTail(line: string): string
    requires |line| >= 2
  {
    SkipBlank(line[2..])
  }

  function LinkUrl(line: string): string
    requires |line| >= 2
  {
    var q := LinkTail(line);
    q[..UrlLen(q, LINKURL_MAX - 1)]
  }

  function LinkLabel(line: string): string
    requires |line| >= 2
  {
    var q := LinkTail(line);
    var t := SkipBlank(q[UrlLen(q, LINKURL_MAX - 1)..]);
    if t == "" then LinkUrl(line) else t
  }

  /** A link line with something to link to. */
  predicate IsLink(line: string) { Starts(line, "=>") && LinkUrl(line) != "" }

  function HashRun(s: string): (n: nat)
    ensures n <= |s|
  {
    if s == "" || s[0] != '#' then 0 else 1 + HashRun(s[1..])
  }

  function FenceText(line: string, pre: bool): string
    requires IsFence(line)
  {
    if pre then "---- /pre ----\n"
    else
      var alt := SkipBlank(line[3..]);
      if alt == "" then "---- pre ----\n" else "---- pre: " + alt + " ----\n"
  }

  function HeadingText(line: string): string {
    var n := HashRun(line);
    var t := SkipBlank(line[n..]);
    if n == 1 then "\n=== " + t + " ===\n" else if n == 2 then "\n-- " + t + " --\n" else "  . " + t + "\n"
  }

  /** The rendering of one line, given the flag and the number a link on it would get. */
  function LineText(line: string, pre: bool, number: nat): string {
    if IsFence(line) then FenceText(line, pre)
    else if pre then line + "\n"
    else if Starts(line, "=>") then
      (if LinkUrl(line) == "" then "" else "[" + PrintNat(number, 10) + "] " + LinkLabel(line) + "\n")
    else if Starts(line, "#") then HeadingText(line)
    else if Starts(line, "*") && (|line| == 1 || line[1] == ' ' || line[1] == '\t') then
      "  * " + SkipBlank(line[1..]) + "\n"
    else if Starts(line, ">") then "  | " + SkipBlank(line[1..]) + "\n"
    else line + "\n"
  }

  // ---- the renderer as a fold ----

  datatype State = State(out: string, pre: bool, links: seq<string>)

  function AddLink(line: string, st: State, maxlinks: nat): seq<string> {
    if !IsFence(line) && !st.pre && IsLink(line) && |st.links| < maxlinks then st.links + [LinkUrl(line)] else st.links
  }

  /** Flag and link table move on even when the text of the line no longer fits. */
  function Passed(line: string, st: State, maxlinks: nat): State {
    State(st.out, st.pre != IsFence(line), AddLink(line, st, maxlinks))
  }

  function Render(p: string, outlen: nat, maxlinks: nat, st: State): State
    decreases |p|
  {
    if p == "" then st
    else
      var line := LineAt(p);
      var text := LineText(line, st.pre, |st.links| + 1);
      var next := Passed(line, st, maxlinks);
      if text == "" then Render(AfterLine(p), outlen, maxlinks, next)
      else if |st.out| + |text| >= outlen then next
      else Render(AfterLine(p), outlen, maxlinks, next.(out := st.out + text))
  }

  // ---- the reference ----

  function Fences(lines: seq<string>): nat {
    if lines == [] then 0 else (if IsFence(lines[0]) then 1 else 0) + Fences(lines[1..])
  }

  /** Line `i` lies inside a preformatted block when an odd number of fences come before it. */
  predicate InPre(lines: seq<string>, i: nat)
    requires i <= |lines|
  {
    Fences(lines[..i]) % 2 == 1
  }

  predicate LinkLine(lines: seq<string>, i: nat)
    requires i < |lines|
  {
    !IsFence(lines[i]) && !InPre(lines, i) && IsLink(lines[i])
  }

  /** The addresses of the link lines among the first `n`, in order. */
  function Urls(lines: seq<string>, n: nat): seq<string>
    requires n <= |lines|
  {
    if n == 0 then []
    else Urls(lines, n - 1) + (if LinkLine(lines, n - 1) then [LinkUrl(lines[n - 1])] else [])
  }

  /** The rendering of line `i`, from the lines alone. */
  function TextOf(lines: seq<string>, i: nat, maxlinks: nat): string
    requires i < |lines|
  {
    LineText(lines[i], InPre(lines, i), Min(|Urls(lines, i)|, maxlinks) + 1)
  }

  function Whole(lines: seq<string>, n: nat, maxlinks: nat): string
    requires n <= |lines|
  {
    if n == 0 then "" else Whole(lines, n - 1, maxlinks) + TextOf(lines, n - 1, maxlinks)
  }

  /** How many lines are rendered before one would fill the buffer. */
  function Fitting(lines: seq<string>, i: nat, outlen: nat, maxlinks: nat): (n: nat)
    requires i <= |lines|
    ensures i <= n <= |lines|
    decreases |lines| - i
  {
    if i == |lines| then i
    else
      var text := TextOf(lines, i, maxlinks);
      if text != "" && |Whole(lines, i, maxlinks)| + |text| >= outlen then i
      else Fitting(lines, i + 1, outlen, maxlinks)
  }

  lemma {:induction false} FencesSnoc(a: seq<string>, x: string)
    ensures Fences(a + [x]) == Fences(a) + (if IsFence(x) then 1 else 0)
  {
    hide IsFence;
    if a == [] {
      assert a + [x] == [x] && [x][1..] == [];
    } else {
      assert (a + [x])[1..] == a[1..] + [x];
      FencesSnoc(a[1..], x);
    }
  }

  lemma InPreNext(lines: seq<string>, i: nat)
    requires i < |lines|
    ensures InPre(lines, i + 1) == (InPre(lines, i) != IsFence(lines[i]))
  {
    hide IsFence;
    assert lines[..i + 1] == lines[..i] + [lines[i]];
    FencesSnoc(lines[..i], lines[i]);
  }

  function FirstOf<T>(s: seq<T>, n: nat): seq<T> { if |s| <= n then s else s[..n] }

  /** What the loop holds when it reaches line `i`. */
  function Reached(lines: seq<string>, i: nat, maxlinks: nat): State
    requires i <= |lines|
  {
    State(Whole(lines, i, maxlinks), InPre(lines, i), FirstOf(Urls(lines, i), maxlinks))
  }

  lemma PassedReached(lines: seq<string>, i: nat, maxlinks: nat)
    requires i < |lines|
    ensures var next := Passed(lines[i], Reached(lines, i, maxlinks), maxlinks);
            && next == Reached(lines, i + 1, maxlinks).(out := Whole(lines, i, maxlinks))
            && LineText(lines[i], Reached(lines, i, maxlinks).pre, |Reached(lines, i, maxlinks).links| + 1)
               == TextOf(lines, i, maxlinks)
  {
    hide LineText, IsFence, IsLink, LinkUrl, Whole;
    InPreNext(lines, i);
  }

  /** The loop over the text renders line by line as the reference says, up to the first line that does not fit. */
  lemma {:induction false} RenderFromLine(body: string, p: string, i: nat, outlen: nat, maxlinks: nat)
    requires i <= |Lines(body)| && Lines(body)[i..] == Lines(p)
    ensures var lines := Lines(body);
            var n := Fitting(lines, i, outlen, maxlinks);
            var r := Render(p, outlen, maxlinks, Reached(lines, i, maxlinks));
            && r.out == Whole(lines, n, maxlinks)
            && r.links == FirstOf(Urls(lines, if n < |lines| then n + 1 else n), maxlinks)
    decreases |p|
  {
    hide LineText, Passed, TextOf, Whole, Urls, LineAt, AfterLine, Reached;
    var lines := Lines(body);
    if p != "" {
      assert lines[i] == Lines(p)[0] == LineAt(p);
      PassedReached(lines, i, maxlinks);
      assert lines[i + 1..] == Lines(p)[1..] == Lines(AfterLine(p));
      StepText(lines, i, maxlinks);
      RenderFromLine(body, AfterLine(p), i + 1, outlen, maxlinks);
      ReachedParts(lines, i, maxlinks);
      ReachedParts(lines, i + 1, maxlinks);
    } else {
      assert i == |lines|;
      ReachedParts(lines, i, maxlinks);
    }
  }

  lemma ReachedParts(lines: seq<string>, i: nat, maxlinks: nat)
    requires i <= |lines|
    ensures var r := Reached(lines, i, maxlinks);
            r.out == Whole(lines, i, maxlinks) && r.links == FirstOf(Urls(lines, i), maxlinks)
  {
  }

  lemma StepText(lines: seq<string>, i: nat, maxlinks: nat)
    requires i < |lines|
    ensures var r := Reached(lines, i + 1, maxlinks);
            && r.out == Whole(lines, i, maxlinks) + TextOf(lines, i, maxlinks)
            && (TextOf(lines, i, maxlinks) == "" ==> r.out == Whole(lines, i, maxlinks))
  {
    assert Whole(lines, i, maxlinks) + "" == Whole(lines, i, maxlinks);
  }

  /**
   Rendering: the output is the concatenation of the line renderings up to the first that does not fit, and the
   table holds the addresses of the link lines passed, as far as it has room.
   */
  lemma RenderIsPerLine(body: string, outlen: nat, maxlinks: nat)
    ensures var lines := Lines(body);
            var n := Fitting(lines, 0, outlen, maxlinks);
            var r := Render(body, outlen, maxlinks, State("", false, []));
            && r.out == Whole(lines, n, maxlinks)
            && r.links == FirstOf(Urls(lines, if n < |lines| then n + 1 else n), maxlinks)
  {
    var lines := Lines(body);
    assert lines[0..] == lines && lines[..0] == [];
    assert Reached(lines, 0, maxlinks) == State("", false, []);
    RenderFromLine(body, body, 0, outlen, maxlinks);
  }

  lemma {:induction false} WholeGrows(lines: seq<string>, i: nat, n: nat, maxlinks: nat)
    requires i <= n <= |lines|
    ensures |Whole(lines, i, maxlinks)| <= |Whole(lines, n, maxlinks)|
    decreases n - i
  {
    if i < n { WholeGrows(lines, i, n - 1, maxlinks); }
  }

  lemma {:induction false} AllFit(lines: seq<string>, i: nat, outlen: nat, maxlinks: nat)
    requires i <= |lines| && |Whole(lines, |lines|, maxlinks)| < outlen
    ensures Fitting(lines, i, outlen, maxlinks) == |lines|
    decreases |lines| - i
  {
    hide TextOf;
    if i < |lines| {
      WholeGrows(lines, i + 1, |lines|, maxlinks);
      AllFit(lines, i + 1, outlen, maxlinks);
    }
  }

  /** When everything fits, everything is there. */
  lemma RenderWhole(body: string, outlen: nat, maxlinks: nat)
    requires |Whole(Lines(body), |Lines(body)|, maxlinks)| < outlen
    ensures var lines := Lines(body);
            var r := Render(body, outlen, maxlinks, State("", false, []));
            r.out == Whole(lines, |lines|, maxlinks) && r.links == FirstOf(Urls(lines, |lines|), maxlinks)
  {
    RenderIsPerLine(body, outlen, maxlinks);
    AllFit(Lines(body), 0, outlen, maxlinks);
  }

  /** Lines copied as they are. */
  function Verbatim(lines: seq<string>): string {
    if lines == [] then "" else Verbatim(lines[..|lines| - 1]) + (lines[|lines| - 1] + "\n")
  }

  /** Inside a preformatted block the lines up to the next fence are copied verbatim, and none is a link. */
  lemma {:induction false} PreIsVerbatim(lines: seq<string>, i: nat, j: nat, maxlinks: nat)
    requires i <= j <= |lines| && InPre(lines, i) && forall k :: i <= k < j ==> !IsFence(lines[k])
    ensures Whole(lines, j, maxlinks) == Whole(lines, i, maxlinks) + Verbatim(lines[i..j])
    ensures InPre(lines, j) && Urls(lines, j) == Urls(lines, i)
    decreases j
  {
    hide InPre, IsFence, TextOf, Urls;
    if j == i {
      assert lines[i..j] == [] && Whole(lines, i, maxlinks) + "" == Whole(lines, i, maxlinks);
    } else {
      PreIsVerbatim(lines, i, j - 1, maxlinks);
      InPreNext(lines, j - 1);
      LineInPre(lines, j - 1, maxlinks);
      assert lines[i..j][..j - i - 1] == lines[i..j - 1];
      Assoc(Whole(lines, i, maxlinks), Verbatim(lines[i..j - 1]), lines[j - 1] + "\n");
    }
  }

  lemma LineInPre(lines: seq<string>, i: nat, maxlinks: nat)
    requires i < |lines| && InPre(lines, i) && !IsFence(lines[i])
    ensures TextOf(lines, i, maxlinks) == lines[i] + "\n" && Urls(lines, i + 1) == Urls(lines, i)
  {
    hide InPre, IsFence;
  }

  /**
   Two fences with no fence between them, the first outside a preformatted block: in the rendered output the
   opening line, the lines between them verbatim, and the closing line follow one another.
   */
  lemma BlockIsVerbatim(body: string, i: nat, j: nat, outlen: nat, maxlinks: nat)
    requires |Whole(Lines(body), |Lines(body)|, maxlinks)| < outlen
    requires i < j < |Lines(body)| && IsFence(Lines(body)[i]) && IsFence(Lines(body)[j]) && !InPre(Lines(body), i)
    requires forall k :: i < k < j ==> !IsFence(Lines(body)[k])
    ensures var lines, r := Lines(body), Render(body, outlen, maxlinks, State("", false, []));
            var block := FenceText(lines[i], false) + (Verbatim(lines[i + 1..j]) + "---- /pre ----\n");
            Whole(lines, i, maxlinks) + block <= r.out
  {
    hide InPre, IsFence, TextOf, Render, Lines, Verbatim, FenceText;
    var lines := Lines(body);
    RenderWhole(body, outlen, maxlinks);
    InPreNext(lines, i);
    FenceLine(lines, i, maxlinks);
    PreIsVerbatim(lines, i + 1, j, maxlinks);
    FenceLine(lines, j, maxlinks);
    WholeSplits(lines, i, maxlinks);
    WholeSplits(lines, j, maxlinks);
    var before, open, inner := Whole(lines, i, maxlinks), FenceText(lines[i], false), Verbatim(lines[i + 1..j]);
    Assoc(before, open, inner);
    Assoc(before, open + inner, "---- /pre ----\n");
    Assoc(open, inner, "---- /pre ----\n");
    WholeIsPrefix(lines, j + 1, |lines|, maxlinks);
  }

  lemma FenceLine(lines: seq<string>, i: nat, maxlinks: nat)
    requires i < |lines| && IsFence(lines[i])
    ensures TextOf(lines, i, maxlinks) == FenceText(lines[i], InPre(lines, i))
    ensures InPre(lines, i) ==> TextOf(lines, i, maxlinks) == "---- /pre ----\n"
  {
    hide InPre, IsFence;
  }

  lemma WholeSplits(lines: seq<string>, i: nat, maxlinks: nat)
    requires i < |lines|
    ensures Whole(lines, i + 1, maxlinks) == Whole(lines, i, maxlinks) + TextOf(lines, i, maxlinks)
  {
  }

  lemma {:induction false} WholeIsPrefix(lines: seq<string>, i: nat, n: nat, maxlinks: nat)
    requires i <= n <= |lines|
    ensures Whole(lines, i, maxlinks) <= Whole(lines, n, maxlinks)
    decreases n - i
  {
    hide TextOf;
    if i < n { WholeIsPrefix(lines, i, n - 1, maxlinks); }
  }

  lemma {:induction false} UrlsGrow(lines: seq<string>, i: nat, n: nat)
    requires i <= n <= |lines|
    ensures |Urls(lines, i)| <= |Urls(lines, n)| && Urls(lines, n)[..|Urls(lines, i)|] == Urls(lines, i)
    decreases n - i
  {
    hide LinkLine, LinkUrl;
    if i < n { UrlsGrow(lines, i, n - 1); }
  }

  /** The k-th link line, k within the table, is printed as number k, and entry k-1 is its address. */
  lemma LinkNumbersAgree(lines: seq<string>, i: nat, n: nat, maxlinks: nat)
    requires i < n <= |lines| && LinkLine(lines, i) && |Urls(lines, i)| < maxlinks
    ensures var k := |Urls(lines, i)| + 1;
            && TextOf(lines, i, maxlinks) == "[" + PrintNat(k, 10) + "] " + LinkLabel(lines[i]) + "\n"
            && k <= |FirstOf(Urls(lines, n), maxlinks)| <= maxlinks
            && FirstOf(Urls(lines, n), maxlinks)[k - 1] == LinkUrl(lines[i])
  {
    hide PrintNat, InPre, IsFence, LinkLabel, LinkUrl;
    UrlsGrow(lines, i + 1, n);
    assert Urls(lines, i + 1) == Urls(lines, i) + [LinkUrl(lines[i])];
    assert Urls(lines, n)[..|Urls(lines, i + 1)|][|Urls(lines, i)|] == Urls(lines, n)[|Urls(lines, i)|];
  }

  // ---- the C functions ----

  /** `gem_next_line`. */
  method NextLine(p: string) returns (line: string, rest: string)
    requires p != ""
    ensures line == LineAt(p) && rest == AfterLine(p)
  {
    var q, n := p, 0;
    while q != "" && q[0] != '\n'
      invariant LineLen(p) == n + LineLen(q)
      decreases |q|
    {
      q, n := q[1..], n + 1;
    }
    line := Take(p[..n], LINE_MAX - 1);
    if line != "" && line[|line| - 1] == '\r' { line := line[..|line| - 1]; }
    rest := if n < |p| then p[n + 1..] else "";
  }

  /** `gem_out_append`. */
  method OutAppend(out: array<char>, o: nat, s: string) returns (ok: bool, n: nat)
    requires o < out.Length
    modifies out
    ensures ok <==> o + |s| < out.Length
    ensures ok ==> n == o + |s| && out[..n] == old(out[..o]) + s && out[n] == '\0'
    ensures !ok ==> n == o && out[..] == old(out[..])
  {
    if o + |s| >= out.Length { return false, o; }
    forall k | 0 <= k < |s| { out[o + k] := s[k]; }
    out[o + |s|] := '\0';
    n := o + |s|;
    assert out[..n] == old(out[..o]) + s;
    ok := true;
  }

  /** `gem_render_gemtext`: the bytes written and the links recorded. */
  method RenderGemtext(body: string, out: array<char>, links: array<string>) returns (o: nat, nlinks: nat)
    requires out.Length >= 1
    modifies out, links
    ensures var r := Render(body, out.Length, links.Length, State("", false, []));
            && o < out.Length && out[..o] == r.out && out[o] == '\0'
            && nlinks <= links.Length && links[..nlinks] == r.links
  {
    hide LineText, IsFence, LinkUrl, LineAt, AfterLine;
    o, nlinks := 0, 0;
    out[0] := '\0';
    var pre, p := false, body;
    ghost var target := Render(body, out.Length, links.Length, State("", false, []));
    while p != ""
      invariant o < out.Length && nlinks <= links.Length && out[o] == '\0'
      invariant Render(p, out.Length, links.Length, State(out[..o], pre, links[..nlinks])) == target
      decreases |p|
    {
      RenderStep(p, out.Length, links.Length, State(out[..o], pre, links[..nlinks]));
      var line, rest := NextLine(p);
      var text := LineText(line, pre, nlinks + 1);
      ghost var st := State(out[..o], pre, links[..nlinks]);
      if !IsFence(line) && !pre && IsLink(line) && nlinks < links.Length {
        links[nlinks] := LinkUrl(line);
        nlinks := nlinks + 1;
        assert links[..nlinks] == st.links + [LinkUrl(line)];
      }
      pre := pre != IsFence(line);
      p := rest;
      if text != "" {
        var ok, n := OutAppend(out, o, text);
        if !ok { break; }
        o := n;
      }
    }
  }

  lemma RenderStep(p: string, outlen: nat, maxlinks: nat, st: State)
    requires p != ""
    ensures var line := LineAt(p);
            var text := LineText(line, st.pre, |st.links| + 1);
            var next := Passed(line, st, maxlinks);
            Render(p, outlen, maxlinks, st)
            == if text == "" then Render(AfterLine(p), outlen, maxlinks, next)
               else if |st.out| + |text| >= outlen then next
               else Render(AfterLine(p), outlen, maxlinks, next.(out := st.out + text))
  {
    hide LineText, Passed, LineAt, AfterLine;
  }
}
