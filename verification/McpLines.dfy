/**
 The wire of the MCP server: lines in, lines out.  The reference cuts a whole text at its line feeds; the server
 reads one character at a time and keeps one buffer.
 */
module McpLines {
  import opened Wrappers
  import opened Bytes
  import opened CText

  /** The text up to the first line feed. */
  function LineOf(s: string): (r: string)
    ensures '\n' !in r
  {
    if s == "" || s[0] == '\n' then "" else [s[0]] + LineOf(s[1..])
  }

  function AfterLine(s: string): (r: string)
    ensures s != "" ==> |r| < |s|
  {
    if s == "" then "" else if s[0] == '\n' then s[1..] else AfterLine(s[1..])
  }

  /** A text cut at its line feeds; a last line without one counts, an empty rest does not. */
  function Lines(s: string): seq<string>
    decreases |s|
  {
    if s == "" then [] else [LineOf(s)] + Lines(AfterLine(s))
  }

  /** The inverse: every line with its line feed. */
  function Joined(lines: seq<string>): string {
    if lines == [] then "" else lines[0] + "\n" + Joined(lines[1..])
  }

  predicate OneLiners(lines: seq<string>) { forall i :: 0 <= i < |lines| ==> '\n' !in lines[i] }

  function NoReturns(s: string): (r: string)
    ensures |r| <= |s|
  {
    if s == "" then "" else (if s[0] == '\r' then "" else [s[0]]) + NoReturns(s[1..])
  }

  /** What the server keeps of a line: no carriage returns, and no more than its buffer holds. */
  function Kept(line: string, buflen: nat): string
    requires buflen >= 1
  {
    Take(NoReturns(line), buflen - 1)
  }

  lemma {:induction false} LineThenRest(line: string, rest: string)
    requires '\n' !in line
    ensures LineOf(line + ("\n" + rest)) == line && AfterLine(line + ("\n" + rest)) == rest
  {
    var s := line + ("\n" + rest);
    if line == "" {
      assert s[1..] == rest;
    } else {
      assert s[1..] == line[1..] + ("\n" + rest);
      LineThenRest(line[1..], rest);
    }
  }

  /** Cutting undoes joining. */
  lemma {:induction false} LinesOfJoined(lines: seq<string>)
    requires OneLiners(lines)
    ensures Lines(Joined(lines)) == lines
  {
    if lines != [] {
      var rest := Joined(lines[1..]);
      Assoc(lines[0], "\n", rest);
      LineThenRest(lines[0], rest);
      assert OneLiners(lines[1..]);
      LinesOfJoined(lines[1..]);
    }
  }

  lemma {:induction false} LineAndRest(s: string)
    ensures s == LineOf(s) || s == LineOf(s) + ("\n" + AfterLine(s))
    ensures s == LineOf(s) ==> AfterLine(s) == ""
  {
    if s != "" {
      if s[0] == '\n' {
        assert s == "" + ("\n" + s[1..]);
      } else {
        LineAndRest(s[1..]);
        assert s == [s[0]] + s[1..];
        Assoc([s[0]], LineOf(s[1..]), "\n" + AfterLine(s[1..]));
        if s == LineOf(s) { assert s[1..] == LineOf(s)[1..] == LineOf(s[1..]); }
      }
    }
  }

  /** Joining undoes cutting, up to the line feed of an unfinished last line: no character is lost or moved. */
  lemma {:induction false} JoinedOfLines(s: string)
    ensures Joined(Lines(s)) == s || Joined(Lines(s)) == s + "\n"
    decreases |s|
  {
    if s != "" {
      var l, rest := LineOf(s), AfterLine(s);
      LineAndRest(s);
      JoinedOfLines(rest);
      assert Lines(s)[1..] == Lines(rest);
      Assoc(l, "\n", Joined(Lines(rest)));
      if s == l {
        assert Joined(Lines(rest)) == "";
      } else {
        Assoc(l, "\n" + rest, "\n");
        Assoc("\n", rest, "\n");
      }
    }
  }

  lemma {:induction false} NoReturnsLacks(s: string, c: char)
    requires c !in s
    ensures c !in NoReturns(s)
  {
    if s != "" { NoReturnsLacks(s[1..], c); }
  }

  lemma {:induction false} NoReturnsSnoc(s: string, c: char)
    ensures NoReturns(s + [c]) == NoReturns(s) + (if c == '\r' then "" else [c])
  {
    var last := if c == '\r' then "" else [c];
    if s == "" {
      assert s + [c] == [c] && [c][1..] == "";
      assert NoReturns([c]) == last + "" == last && "" + last == last;
    } else {
      assert (s + [c])[0] == s[0] && (s + [c])[1..] == s[1..] + [c];
      NoReturnsSnoc(s[1..], c);
      Assoc(if s[0] == '\r' then "" else [s[0]], NoReturns(s[1..]), last);
    }
  }

  /** A line that fits, without carriage returns, is kept whole. */
  lemma {:induction false} NothingReturned(s: string)
    requires '\r' !in s
    ensures NoReturns(s) == s
  {
    if s != "" {
      NothingReturned(s[1..]);
      assert s == [s[0]] + s[1..];
    }
  }

  /** A kept line is one line. */
  lemma KeptIsOneLine(line: string, buflen: nat)
    requires '\n' !in line && buflen >= 1
    ensures '\n' !in Kept(line, buflen)
  {
    NoReturnsLacks(line, '\n');
  }

  /** Standard input, by what is left of it, and standard output, by what was written. */
  class Stdio {
    var stdin: string
    var stdout: string

    constructor (input: string)
      ensures stdin == input && stdout == ""
    {
      stdin, stdout := input, "";
    }

    /** `getchar`. */
    method GetChar() returns (c: Option<char>)
      modifies this`stdin
      ensures old(stdin) == "" ==> c == None && stdin == ""
      ensures old(stdin) != "" ==> c == Some(old(stdin)[0]) && stdin == old(stdin)[1..]
    {
      if stdin == "" { return None; }
      c := Some(stdin[0]);
      stdin := stdin[1..];
    }

    /** `read_line`: one line into `buf`; -1 only when the input was already at its end. */
    method ReadLine(buf: array<char>) returns (n: int)
      requires buf.Length >= 1
      modifies this`stdin, buf
      ensures old(stdin) == "" ==> n == -1 && stdin == ""
      ensures old(stdin) != "" ==>
                && stdin == AfterLine(old(stdin))
                && var l := Kept(LineOf(old(stdin)), buf.Length);
                   0 <= n == |l| < buf.Length && buf[..n] == l && buf[n] == '\0'
    {
      hide NoReturns, LineOf, AfterLine;
      var o, saw := 0, false;
      ghost var was := stdin;
      ghost var done := "";
      NoReturnsNothing();
      while true
        invariant 0 <= o < buf.Length
        invariant saw <==> was != stdin
        invariant !saw ==> was == stdin && done == ""
        invariant LineOf(was) == done + LineOf(stdin) && AfterLine(was) == AfterLine(stdin)
        invariant o == |Kept(done, buf.Length)| && buf[..o] == Kept(done, buf.Length)
        invariant |stdin| <= |was|
        decreases |stdin|
      {
        ghost var before := stdin;
        LineStep(stdin);
        var c := GetChar();
        if c == None { break; }
        saw := true;
        if c.value == '\n' {
          assert LineOf(was) == done by { assert done + "" == done; }
          break;
        }
        Assoc(done, [c.value], LineOf(stdin));
        NoReturnsSnoc(done, c.value);
        if c.value == '\r' {
          done := done + [c.value];
          assert NoReturns(done) == NoReturns(done[..|done| - 1]) + "";
          continue;
        }
        if o < buf.Length - 1 {
          ghost var head := buf[..o];
          buf[o] := c.value;
          o := o + 1;
          assert buf[..o] == head + [c.value];
        }
        done := done + [c.value];
      }
      assert done + "" == done;
      buf[o] := '\0';
      assert buf[..o] == Kept(done, buf.Length);
      n := if !saw && o == 0 then -1 else o;
    }

    /** `fputs` and `fputc('\n')`. */
    method PutLine(s: string)
      modifies this`stdout
      ensures stdout == old(stdout) + (s + "\n")
    {
      stdout := stdout + (s + "\n");
    }
  }

  lemma NoReturnsNothing()
    ensures NoReturns("") == ""
  {
  }

  lemma LineStep(s: string)
    ensures s == "" ==> LineOf(s) == "" && AfterLine(s) == ""
    ensures s != "" && s[0] == '\n' ==> LineOf(s) == "" && AfterLine(s) == s[1..]
    ensures s != "" && s[0] != '\n' ==> LineOf(s) == [s[0]] + LineOf(s[1..]) && AfterLine(s) == AfterLine(s[1..])
  {
  }
}
