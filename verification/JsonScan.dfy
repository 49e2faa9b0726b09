/**
 The ad hoc JSON scanners of claude.c, mcp.c, mastodon.c, nostr.c and rtc_common.c: key search, string
 extraction and balanced spans, with no parser behind them.  `JsonValue` says what they find in printed JSON.
 */
module JsonScan {
  import opened Wrappers
  import opened CText
  import opened JsonText

  function Quoted(s: string): (r: string)
    ensures |r| == |s| + 2
  {
    "\"" + s + "\""
  }

  // ---- keys ----

  /** A quoted pattern in key position: white space, then a colon, follow it. */
  predicate KeyHere(s: string, pat: string) {
    Starts(s, pat) && Starts(SkipSpace(s[|pat|..]), ":")
  }

  /** The search loop of `find_key`: the text after the colon of the first match it accepts. */
  function FindPat(s: string, pat: string): (r: Option<string>)
    requires pat != ""
    decreases |s|
  {
    if |s| < |pat| then None
    else if Starts(s, pat) then
      var q := SkipSpace(s[|pat|..]);
      if Starts(q, ":") then Some(q[1..]) else FindPat(s[|pat|..], pat)
    else FindPat(s[1..], pat)
  }

  function FindKey(json: string, key: string): Option<string> {
    if |key| > 70 then None else FindPat(json, Quoted(key))
  }

  // ---- string values ----

  /** How far the scan for the closing quote goes. */
  function BodyLen(s: string): (n: nat)
    ensures n <= |s|
    ensures n == |s| || s[n] == '\"'
  {
    if s == "" || s[0] == '\"' then 0
    else if s[0] == '\\' && |s| > 1 then 2 + BodyLen(s[2..])
    else 1 + BodyLen(s[1..])
  }

  /** `get_json_string` into a buffer of `outlen`, as the caller reads it back. */
  function GetString(json: string, key: string, outlen: nat): Option<string> {
    match FindKey(json, key)
    case None => None
    case Some(q) =>
      var v := SkipSpace(q);
      if !Starts(v, "\"") then None
      else Some(CStr(UnescapeWithin(v[1..][..BodyLen(v[1..])], outlen - 4)))
  }

  /** The buffer is empty after a failed lookup. */
  function GetStringOrEmpty(json: string, key: string, outlen: nat): string {
    match GetString(json, key, outlen) case None => "" case Some(s) => s
  }

  // ---- balanced spans ----

  function After(n: nat, o: Option<nat>): Option<nat> {
    match o case None => None case Some(k) => Some(n + k)
  }

  /** The number of characters up to and including the bracket that brings `depth` back to zero. */
  function Balance(s: string, open: char, close: char, depth: int, instr: bool): (r: Option<nat>)
    ensures r.Some? ==> 1 <= r.value <= |s|
  {
    if s == "" then None
    else if instr then
      if s[0] == '\\' && |s| > 1 then After(2, Balance(s[2..], open, close, depth, true))
      else After(1, Balance(s[1..], open, close, depth, s[0] != '\"'))
    else if s[0] == '\"' then After(1, Balance(s[1..], open, close, depth, true))
    else if s[0] == open then After(1, Balance(s[1..], open, close, depth + 1, false))
    else if s[0] == close then
      if depth == 1 then Some(1) else After(1, Balance(s[1..], open, close, depth - 1, false))
    else After(1, Balance(s[1..], open, close, depth, false))
  }

  /** `get_raw_span`: the array or object that is the value of `key`. */
  function RawSpan(json: string, key: string): Option<string> {
    match FindKey(json, key)
    case None => None
    case Some(q) =>
      var v := SkipSpace(q);
      if !Starts(v, "[") && !Starts(v, "{") then None
      else match Balance(v, v[0], if v[0] == '[' then ']' else '}', 0, false)
           case None => None
           case Some(n) => Some(v[..n])
  }

  /** The span, copied into a buffer of `size`. */
  function SpanCopy(json: string, key: string, size: nat): Option<string>
    requires size >= 1
  {
    match RawSpan(json, key) case None => None case Some(s) => Some(Take(s, size - 1))
  }

  /** Where an object starts, unless the array ends first. */
  function SeekObject(p: string): Option<string> {
    if p == "" || p[0] == ']' then None else if p[0] == '{' then Some(p) else SeekObject(p[1..])
  }

  datatype Next = Next(copy: string, rest: string)

  /** `rtc_json_next_obj` / `json_next_obj`: the copy, cut to the buffer, and the text after the object. */
  function NextObj(p: string, outlen: nat): Option<Next>
    requires outlen >= 1
  {
    match SeekObject(p)
    case None => None
    case Some(q) =>
      match Balance(q, '{', '}', 0, false)
      case None => None
      case Some(n) => Some(Next(Take(q[..n], outlen - 1), q[n..]))
  }

  lemma {:induction false} SeekObjectIsSuffix(p: string)
    ensures SeekObject(p).Some? ==> var q := SeekObject(p).value; 0 < |q| <= |p| && q == p[|p| - |q|..]
  {
    if p != "" && p[0] != ']' && p[0] != '{' { SeekObjectIsSuffix(p[1..]); }
  }

  // ---- one step of each scan ----

  lemma FindPatStep(s: string, pat: string)
    requires pat != ""
    ensures FindPat(s, pat)
         == if |s| < |pat| then None
            else if Starts(s, pat) then
              var q := SkipSpace(s[|pat|..]);
              if Starts(q, ":") then Some(q[1..]) else FindPat(s[|pat|..], pat)
            else FindPat(s[1..], pat)
  {
    hide SkipSpace;
  }

  lemma StartsChar(s: string, c: char)
    ensures Starts(s, [c]) <==> s != "" && s[0] == c
  {
  }

  lemma BodyLenStep(s: string)
    ensures BodyLen(s) == if s == "" || s[0] == '\"' then 0
                          else if s[0] == '\\' && |s| > 1 then 2 + BodyLen(s[2..])
                          else 1 + BodyLen(s[1..])
  {
  }

  lemma BalanceStep(s: string, open: char, close: char, depth: int, instr: bool)
    ensures Balance(s, open, close, depth, instr)
         == if s == "" then None
            else if instr then
              if s[0] == '\\' && |s| > 1 then After(2, Balance(s[2..], open, close, depth, true))
              else After(1, Balance(s[1..], open, close, depth, s[0] != '\"'))
            else if s[0] == '\"' then After(1, Balance(s[1..], open, close, depth, true))
            else if s[0] == open then After(1, Balance(s[1..], open, close, depth + 1, false))
            else if s[0] == close then
              if depth == 1 then Some(1) else After(1, Balance(s[1..], open, close, depth - 1, false))
            else After(1, Balance(s[1..], open, close, depth, false))
  {
  }

  lemma EmptyCStr(s: string)
    requires s != "" && s[0] == '\0'
    ensures CStr(s) == ""
  {
  }

  lemma {:induction false} CStrStops(s: string, n: nat)
    requires n < |s| && s[n] == '\0'
    ensures CStr(s) == CStr(s[..n])
  {
    if n > 0 && s[0] != '\0' {
      CStrStops(s[1..], n - 1);
      assert s[..n][1..] == s[1..][..n - 1];
    }
  }

  // ---- the C loops, each pointer being the text from it onwards ----

  method SkipBlanks(s: string) returns (p: string)
    ensures p == SkipSpace(s)
  {
    p := s;
    while p != "" && IsSpace(p[0])
      invariant SkipSpace(p) == SkipSpace(s)
      decreases |p|
    {
      p := p[1..];
    }
  }

  /** `find_key`. */
  method FindKeyPtr(json: string, key: string) returns (r: Option<string>)
    ensures r == FindKey(json, key)
  {
    hide SkipSpace, FindPat, Quoted, Starts;
    if |key| > 70 { return None; }
    var pat := Quoted(key);
    var p := json;
    while |p| >= |pat|
      invariant FindPat(p, pat) == FindPat(json, pat)
      decreases |p|
    {
      FindPatStep(p, pat);
      if Starts(p, pat) {
        var q := SkipBlanks(p[|pat|..]);
        StartsChar(q, ':');
        if q != "" && q[0] == ':' { return Some(q[1..]); }
        p := p[|pat|..];
      } else {
        p := p[1..];
      }
    }
    FindPatStep(p, pat);
    r := None;
  }

  /** The search for the closing quote. */
  method BodyRun(vs: string) returns (n: nat)
    ensures n == BodyLen(vs)
  {
    hide BodyLen;
    var p := vs;
    n := 0;
    while p != "" && p[0] != '\"'
      invariant BodyLen(vs) == n + BodyLen(p)
      decreases |p|
    {
      BodyLenStep(p);
      if p[0] == '\\' && |p| > 1 {
        p, n := p[2..], n + 2;
      } else {
        p, n := p[1..], n + 1;
      }
    }
    BodyLenStep(p);
  }

  /** `get_json_string`. */
  method GetJsonString(json: string, key: string, out: array<char>) returns (ok: bool)
    requires out.Length >= 1
    modifies out
    ensures ok <==> GetString(json, key, out.Length).Some?
    ensures CStr(out[..]) == GetStringOrEmpty(json, key, out.Length)
  {
    hide UnescapeWithin, FindKey, SkipSpace, BodyLen, CStr, Starts;
    out[0] := '\0';
    EmptyCStr(out[..]);
    var q := FindKeyPtr(json, key);
    if q == None { return false; }
    var p := SkipBlanks(q.value);
    StartsChar(p, '\"');
    if p == "" || p[0] != '\"' { return false; }
    var n := BodyRun(p[1..]);
    var len := JsonUnescape(p[1..][..n], out);
    CStrStops(out[..], len);
    assert out[..][..len] == out[..len];
    ok := true;
  }

  /** The depth scan shared by `get_raw_span` and the object walkers. */
  method BalanceRun(s: string, open: char, close: char) returns (len: Option<nat>)
    ensures len == Balance(s, open, close, 0, false)
  {
    hide Balance;
    var p, n, depth, instr := s, 0, 0, false;
    while p != ""
      invariant Balance(s, open, close, 0, false) == After(n, Balance(p, open, close, depth, instr))
      decreases |p|
    {
      var ch := p[0];
      BalanceStep(p, open, close, depth, instr);
      var step := 1;
      if instr {
        if ch == '\\' && |p| > 1 {
          step := 2;
        } else if ch == '\"' {
          instr := false;
        }
      } else if ch == '\"' {
        instr := true;
      } else if ch == open {
        depth := depth + 1;
      } else if ch == close {
        depth := depth - 1;
        if depth == 0 { return Some(n + 1); }
      }
      p, n := p[step..], n + step;
    }
    BalanceStep(p, open, close, depth, instr);
    len := None;
  }

  /** `get_raw_span`. */
  method GetRawSpan(json: string, key: string) returns (span: Option<string>)
    ensures span == RawSpan(json, key)
  {
    hide FindKey, SkipSpace, Balance, Starts;
    var q := FindKeyPtr(json, key);
    if q == None { return None; }
    var p := SkipBlanks(q.value);
    StartsChar(p, '[');
    StartsChar(p, '{');
    if p == "" || (p[0] != '[' && p[0] != '{') { return None; }
    var n := BalanceRun(p, p[0], if p[0] == '[' then ']' else '}');
    span := if n == None then None else Some(p[..n.value]);
  }

  method CopySpan(json: string, key: string, size: nat) returns (copy: Option<string>)
    requires size >= 1
    ensures copy == SpanCopy(json, key, size)
  {
    var span := GetRawSpan(json, key);
    copy := if span == None then None else Some(Take(span.value, size - 1));
  }

  /** `rtc_json_next_obj`: fills `out` and returns where to go on. */
  method NextObjPtr(s: string, out: array<char>) returns (rest: Option<string>)
    requires out.Length >= 1
    modifies out
    ensures match NextObj(s, out.Length)
            case None => rest == None
            case Some(n) =>
              rest == Some(n.rest) && |n.copy| < out.Length && out[..|n.copy|] == n.copy && out[|n.copy|] == '\0'
  {
    hide Balance, SeekObject, Take;
    var q := SeekPtr(s);
    if q == None { return None; }
    var end := BalanceRun(q.value, '{', '}');
    if end == None { return None; }
    var copy := Take(q.value[..end.value], out.Length - 1);
    forall k | 0 <= k < |copy| { out[k] := copy[k]; }
    out[|copy|] := '\0';
    assert out[..|copy|] == copy;
    rest := Some(q.value[end.value..]);
  }

  method SeekPtr(s: string) returns (q: Option<string>)
    ensures q == SeekObject(s)
  {
    var p := s;
    while p != "" && p[0] != '{'
      invariant SeekObject(p) == SeekObject(s)
      decreases |p|
    {
      if p[0] == ']' { return None; }
      p := p[1..];
    }
    q := if p == "" then None else Some(p);
  }

  /** `get_json_string` into a buffer of `outlen`, read back as a C string. */
  method ReadString(json: string, key: string, outlen: nat) returns (ok: bool, value: string)
    requires outlen >= 1
    ensures ok <==> GetString(json, key, outlen).Some?
    ensures value == GetStringOrEmpty(json, key, outlen)
  {
    var buf := new char[outlen];
    ok := GetJsonString(json, key, buf);
    value := CStr(buf[..]);
  }
}
