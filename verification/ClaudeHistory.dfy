/**
 The bounded conversation history of the Claude client: at most 48 messages, the two oldest dropped at a time,
 and the comma-separated join that goes into a request.
 */
module ClaudeHistory {
  import opened CText

  const MAX_MSGS := 48

  /** How many messages are kept after `n` additions. */
  function Kept(n: nat): (k: nat)
    ensures k <= n && k <= MAX_MSGS
  {
    if n <= MAX_MSGS then n else MAX_MSGS - n % 2
  }

  /** What is stored after adding the messages of `log`: its last ones. */
  function Stored(log: seq<string>): (s: seq<string>)
    ensures |s| == Kept(|log|)
  {
    log[|log| - Kept(|log|)..]
  }

  // ---- joining ----

  /** The size test of `hist_join`: every entry counts its length and one more. */
  function Total(entries: seq<string>): nat {
    if entries == [] then 0 else |entries[0]| + 1 + Total(entries[1..])
  }

  predicate Passes(entries: seq<string>, start: nat, outlen: nat)
    requires start <= |entries|
  {
    Total(entries[start..]) < outlen - 1
  }

  /** The first position whose suffix passes the test, or the end if not even the last entry does. */
  function FirstPassing(entries: seq<string>, start: nat, outlen: nat): (k: nat)
    requires start <= |entries|
    ensures start <= k <= |entries|
    ensures k < |entries| ==> Passes(entries, k, outlen)
    ensures forall j :: start <= j < k ==> !Passes(entries, j, outlen)
    decreases |entries| - start
  {
    if start == |entries| || Passes(entries, start, outlen) then start else FirstPassing(entries, start + 1, outlen)
  }

  /** What the request carries: the longest suffix that passes, joined. */
  function Joined(entries: seq<string>, outlen: nat): string { Join(entries[FirstPassing(entries, 0, outlen)..], ",") }

  lemma {:induction false} JoinLength(entries: seq<string>)
    requires entries != []
    ensures |Join(entries, ",")| + 1 == Total(entries)
  {
    if |entries| > 1 {
      JoinLength(entries[1..]);
    } else {
      assert entries[1..] == [];
    }
  }

  /** The joined text always leaves room for its terminator, and is maximal: one entry more would not pass. */
  lemma JoinedIsLongest(entries: seq<string>, outlen: nat)
    ensures var k := FirstPassing(entries, 0, outlen);
            && Joined(entries, outlen) == Join(entries[k..], ",")
            && (Joined(entries, outlen) != "" ==> |Joined(entries, outlen)| < outlen - 2)
            && (k > 0 ==> |Join(entries[k - 1..], ",")| + 1 >= outlen - 1)
  {
    var k := FirstPassing(entries, 0, outlen);
    if k < |entries| { JoinLength(entries[k..]); }
    if k > 0 {
      assert !Passes(entries, k - 1, outlen);
      JoinLength(entries[k - 1..]);
    }
  }

  /** Once the test has passed, no entry of the suffix can trip the overflow test of the copy loop. */
  lemma InnerBreakUnreachable(entries: seq<string>, outlen: nat, i: nat)
    requires i < |entries| && Total(entries) < outlen - 1
    ensures |Join(entries[..i], ",")| + |entries[i]| + 2 < outlen
  {
    JoinLength(entries);
    assert entries[..i + 1] == entries[..i] + [entries[i]];
    JoinSnoc(entries[..i], entries[i], ",");
    JoinGrows(entries, i + 1, ",");
    if i == 0 { assert entries[..0] == []; }
  }

  // ---- the C state ----

  /** `g_hist` and `g_nhist`; `log` is every message ever added. */
  class History {
    const hist: array<string>
    var nhist: nat
    ghost var log: seq<string>

    ghost predicate Valid()
      reads this, hist
    {
      hist.Length == MAX_MSGS && nhist == Kept(|log|) && hist[..nhist] == Stored(log)
    }

    constructor ()
      ensures Valid() && log == [] && fresh(hist)
    {
      hist := new string[MAX_MSGS](_ => "");
      nhist, log := 0, [];
    }

    /** `hist_add`. */
    method Add(obj: string)
      requires Valid()
      modifies this, hist
      ensures Valid() && log == old(log) + [obj]
    {
      ghost var was := hist[..nhist];
      if nhist >= MAX_MSGS {
        forall i | 0 <= i < nhist - 2 { hist[i] := hist[i + 2]; }
        nhist := nhist - 2;
        assert hist[..nhist] == was[2..];
      }
      ghost var kept := hist[..nhist];
      hist[nhist] := obj;
      nhist := nhist + 1;
      assert hist[..nhist] == kept + [obj];
      StoredNext(log, obj);
      log := log + [obj];
    }

    /** `hist_join`. */
    method JoinInto(out: array<char>) returns (o: nat)
      requires Valid() && out.Length >= 1
      modifies out
      ensures o < out.Length && out[o] == '\0' && out[..o] == Joined(Stored(log), out.Length)
    {
      hide Kept, Stored;
      ghost var entries := hist[..nhist];
      var start := 0;
      while true
        invariant 0 <= start <= nhist && (nhist > 0 ==> start < nhist)
        invariant FirstPassing(entries, start, out.Length) == FirstPassing(entries, 0, out.Length)
        decreases nhist - start
      {
        var total := SumFrom(start);
        if total < out.Length - 1 || start >= nhist - 1 { break; }
        start := start + 1;
      }
      o := CopyFrom(start, out);
      FinalSuffix(entries, start, out.Length);
    }

    method SumFrom(start: nat) returns (total: nat)
      requires nhist <= hist.Length && start <= nhist
      ensures total == Total(hist[..nhist][start..])
    {
      total := 0;
      var i := nhist;
      ghost var e := hist[..nhist];
      while i > start
        invariant start <= i <= nhist && total == Total(e[i..])
      {
        i := i - 1;
        assert e[i..][1..] == e[i + 1..];
        total := total + |hist[i]| + 1;
      }
    }

    /** The copy loop, with its overflow test. */
    method CopyFrom(start: nat, out: array<char>) returns (o: nat)
      requires nhist <= hist.Length && start <= nhist && out.Length >= 1
      modifies out
      ensures o < out.Length && out[o] == '\0'
      ensures out[..o] == CopyText(hist[..nhist][start..], out.Length)
    {
      hide Join;
      ghost var e := hist[..nhist][start..];
      o := 0;
      var i := start;
      CopyStart(e);
      while i < nhist
        invariant start <= i <= nhist && o < out.Length
        invariant hist[..nhist][start..] == e
        invariant out[..o] == Join(e[..i - start], ",")
                && CopyCount(e, i - start, out.Length) == CopyCount(e, 0, out.Length)
      {
        var l := |hist[i]|;
        assert hist[i] == e[i - start];
        if o + l + 2 >= out.Length { break; }
        if i > start {
          o := PutText(out, o, ",");
        }
        var entry := hist[i];
        o := PutText(out, o, entry);
        assert e[..i - start + 1] == e[..i - start] + [entry];
        JoinSnoc(e[..i - start], entry, ",");
        i := i + 1;
      }
      out[o] := '\0';
    }
  }

  /** How many entries the copy loop takes. */
  function CopyCount(e: seq<string>, i: nat, outlen: nat): (n: nat)
    requires i <= |e|
    ensures i <= n <= |e|
    decreases |e| - i
  {
    if i == |e| || |Join(e[..i], ",")| + |e[i]| + 2 >= outlen then i else CopyCount(e, i + 1, outlen)
  }

  function CopyText(e: seq<string>, outlen: nat): string { Join(e[..CopyCount(e, 0, outlen)], ",") }

  lemma CopyStart(e: seq<string>)
    ensures Join(e[..0], ",") == ""
  {
    assert e[..0] == [];
  }

  lemma {:induction false} CopyAll(e: seq<string>, i: nat, outlen: nat)
    requires i <= |e| && Total(e) < outlen - 1
    ensures CopyCount(e, i, outlen) == |e|
    decreases |e| - i
  {
    if i < |e| {
      InnerBreakUnreachable(e, outlen, i);
      CopyAll(e, i + 1, outlen);
    }
  }

  /** Where the search loop stops, the copy loop writes the longest passing suffix. */
  lemma FinalSuffix(entries: seq<string>, start: nat, outlen: nat)
    requires start <= |entries| && (|entries| > 0 ==> start < |entries|)
    requires FirstPassing(entries, start, outlen) == FirstPassing(entries, 0, outlen)
    requires Passes(entries, start, outlen) || start >= |entries| - 1
    ensures CopyText(entries[start..], outlen) == Joined(entries, outlen)
  {
    var e := entries[start..];
    if Passes(entries, start, outlen) {
      CopyAll(e, 0, outlen);
      assert e[..|e|] == e;
    } else if entries != [] {
      assert e[1..] == [];
      assert CopyCount(e, 0, outlen) == 0 by { CopyStart(e); }
      CopyStart(e);
      assert entries[|entries|..] == [];
    }
  }

  /** One addition: append, dropping a pair first when full; the number evicted stays even. */
  lemma StoredNext(log: seq<string>, obj: string)
    ensures var s := Stored(log);
            Stored(log + [obj]) == (if |s| >= MAX_MSGS then s[2..] else s) + [obj]
  {
  }

  /** Any run of additions, one `hist_add` after the other, starting from nothing. */
  function AfterAdds(log: seq<string>): seq<string> {
    if log == [] then []
    else
      var s := AfterAdds(log[..|log| - 1]);
      (if |s| >= MAX_MSGS then s[2..] else s) + [log[|log| - 1]]
  }

  lemma {:induction false} AddsAreStored(log: seq<string>)
    ensures AfterAdds(log) == Stored(log)
  {
    hide Stored, Kept;
    if log != [] {
      var front := log[..|log| - 1];
      AddsAreStored(front);
      StoredNext(front, log[|log| - 1]);
      assert log == front + [log[|log| - 1]];
    } else {
      StoredNothing();
    }
  }

  lemma StoredNothing()
    ensures Stored([]) == []
  {
  }

  /** After any additions: a suffix of the log, at most 48 entries, an even number evicted, nothing evicted early. */
  lemma BoundedSuffix(log: seq<string>)
    ensures var s := AfterAdds(log);
            && |s| <= MAX_MSGS && |s| <= |log| && s == log[|log| - |s|..]
            && (|log| - |s|) % 2 == 0
            && (|log| <= MAX_MSGS ==> s == log) && (|log| > MAX_MSGS ==> |s| >= MAX_MSGS - 1)
  {
    AddsAreStored(log);
  }
}
