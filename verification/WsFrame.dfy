/**
 The WebSocket frame codec of nostr.c (RFC 6455, section 5.2).

 `Encode` lists every frame a relay may send: any of the three length forms, masked or not, any reserved
 bits.  `Parse` follows `ws_parse_frame` branch by branch on the bytes at hand, and the lemmas relate the
 two in both directions.
 */
module WsFrame {
  import opened Wrappers
  import opened Bytes

  datatype LengthForm = Short | Mid | Long

  /** A frame on the wire; `head` holds FIN, the reserved bits and the opcode. */
  datatype Frame = Frame(head: byte, form: LengthForm, mask: Option<seq<byte>>, payload: seq<byte>) {
    predicate Valid() {
      && (mask.Some? ==> |mask.value| == 4)
      && match form
         case Short => |payload| < 126
         case Mid => |payload| < 0x1_0000
         case Long => |payload| < 0x1_0000_0000
    }

    predicate Fin() { head >= 128 }

    function Opcode(): nat { head % 16 }
  }

  function LengthBytes(form: LengthForm, masked: bool, n: nat): seq<byte>
    requires form.Short? ==> n < 126
  {
    var bit := if masked then 128 else 0;
    match form
    case Short => [bit + n]
    case Mid => [bit + 126, Octet(n, 1), Octet(n, 0)]
    case Long => [bit + 127, 0, 0, 0, 0, Octet(n, 3), Octet(n, 2), Octet(n, 1), Octet(n, 0)]
  }

  function Masked(payload: seq<byte>, mask: seq<byte>): (r: seq<byte>)
    requires |mask| == 4
    ensures |r| == |payload|
  {
    seq(|payload|, i requires 0 <= i < |payload| => Xor(payload[i], mask[i % 4]))
  }

  function Header(f: Frame): seq<byte>
    requires f.Valid()
  {
    [f.head] + LengthBytes(f.form, f.mask.Some?, |f.payload|) + (if f.mask.Some? then f.mask.value else [])
  }

  function Encode(f: Frame): seq<byte>
    requires f.Valid()
  {
    Header(f) + (if f.mask.Some? then Masked(f.payload, f.mask.value) else f.payload)
  }

  function MinimalForm(n: nat): LengthForm {
    if n < 126 then Short else if n < 0x1_0000 then Mid else Long
  }

  /** The frame `ws_build_frame` writes: final, masked, shortest length form. */
  function ClientFrame(payload: seq<byte>, opcode: nat, mask: seq<byte>): Frame {
    Frame(128 + opcode % 16, MinimalForm(|payload|), Some(mask), payload)
  }

  // ---- parsing ----

  datatype Parsed = Incomplete | Bad | Ok(consumed: nat, fin: bool, opcode: nat, payload: seq<byte>)

  /** The fixed part of a frame: how long it is, the payload length it announces, the mask if any. */
  datatype Lead = NeedMore | Reject | Lead(size: nat, len: nat, mask: seq<byte>)

  function MaskAt(s: seq<byte>, h: nat, len: nat): Lead
    requires |s| >= 2
  {
    if s[1] < 128 then Lead(h, len, [])
    else if |s| < h + 4 then NeedMore
    else Lead(h + 4, len, s[h..h + 4])
  }

  function ParseLead(s: seq<byte>): (r: Lead)
    ensures r.Lead? ==> 2 <= r.size <= 14 && r.size <= |s| && (r.mask == [] || |r.mask| == 4)
  {
    if |s| < 2 then NeedMore
    else if s[1] % 128 == 126 then
      if |s| < 4 then NeedMore else MaskAt(s, 4, Be16(s[2], s[3]))
    else if s[1] % 128 == 127 then
      if |s| < 10 then NeedMore
      else if s[2] != 0 || s[3] != 0 || s[4] != 0 || s[5] != 0 then Reject
      else MaskAt(s, 10, Be32(s[6], s[7], s[8], s[9]))
    else MaskAt(s, 2, s[1] % 128)
  }

  function Parse(s: seq<byte>, cap: nat): Parsed {
    match ParseLead(s)
    case NeedMore => Incomplete
    case Reject => Bad
    case Lead(h, len, mask) =>
      if len > cap then Bad
      else if |s| < h + len then Incomplete
      else
        var raw := s[h..h + len];
        Ok(h + len, s[0] >= 128, s[0] % 16, if mask == [] then raw else Masked(raw, mask))
  }

  // ---- lemmas ----

  lemma MaskedTwice(payload: seq<byte>, mask: seq<byte>)
    requires |mask| == 4
    ensures Masked(Masked(payload, mask), mask) == payload
  {
    forall i | 0 <= i < |payload| ensures Masked(Masked(payload, mask), mask)[i] == payload[i] {
      XorInvolution(payload[i], mask[i % 4]);
    }
  }

  lemma LeadOfEncoded(f: Frame, rest: seq<byte>)
    requires f.Valid()
    ensures (Header(f) + rest)[0] == f.head
    ensures ParseLead(Header(f) + rest)
         == Lead(|Header(f)|, |f.payload|, if f.mask.Some? then f.mask.value else [])
  {
    var mask := if f.mask.Some? then f.mask.value else [];
    var lens := LengthBytes(f.form, f.mask.Some?, |f.payload|);
    LengthRead(f.head, f.form, f.mask.Some?, |f.payload|, mask + rest);
    hide LengthBytes, ParseLead;
    var s, h := Header(f) + rest, 1 + |lens|;
    assert s == [f.head] + lens + (mask + rest);
    assert f.mask.Some? ==> (mask + rest)[..4] == mask && s[h..h + 4] == s[h..][..4];
  }

  lemma LengthRead(head: byte, form: LengthForm, masked: bool, n: nat, t: seq<byte>)
    requires match form case Short => n < 126 case Mid => n < 0x1_0000 case Long => n < 0x1_0000_0000
    ensures var lens := LengthBytes(form, masked, n);
            var s := [head] + lens + t;
            && |s| >= 2 && ParseLead(s) == MaskAt(s, 1 + |lens|, n)
            && (s[1] < 128 <==> !masked) && s[1 + |lens|..] == t
  {
    match form {
      case Short =>
      case Mid => Be16OfOctets(n);
      case Long => Be32OfOctets(n);
    }
    hide Octet, MaskAt;
  }

  /** Round trip, for every frame, length form and continuation; a payload over the cap is refused. */
  lemma ParseEncode(f: Frame, rest: seq<byte>, cap: nat)
    requires f.Valid()
    ensures Parse(Encode(f) + rest, cap)
         == if |f.payload| <= cap then Ok(|Encode(f)|, f.Fin(), f.Opcode(), f.payload) else Bad
  {
    hide Masked, Header, ParseLead;
    var body := if f.mask.Some? then Masked(f.payload, f.mask.value) else f.payload;
    var s := Encode(f) + rest;
    var h := |Header(f)|;
    assert s == Header(f) + (body + rest);
    LeadOfEncoded(f, body + rest);
    assert s[h..h + |f.payload|] == body;
    if f.mask.Some? { MaskedTwice(f.payload, f.mask.value); }
  }

  /** Conversely, whatever parses is a valid frame followed by untouched bytes. */
  lemma ParsedIsFrame(s: seq<byte>, cap: nat) returns (f: Frame)
    requires Parse(s, cap).Ok?
    ensures var p := Parse(s, cap);
            && f.Valid()
            && p.consumed <= |s|
            && Encode(f) == s[..p.consumed]
            && |f.payload| <= cap
            && p == Ok(|Encode(f)|, f.Fin(), f.Opcode(), f.payload)
  {
    hide Masked, Header, ParseLead;
    var lead := ParseLead(s);
    var p := Parse(s, cap);
    LeadFits(s);
    f := Frame(s[0], FormOf(s), if s[1] < 128 then None else Some(lead.mask), p.payload);
    var raw := s[lead.size..lead.size + lead.len];
    if f.mask.Some? { MaskedTwice(raw, lead.mask); }
    HeaderOfLead(s, f);
    assert Encode(f) == s[..lead.size] + raw;
    assert s[..lead.size] + raw == s[..lead.size + lead.len];
  }

  function FormOf(s: seq<byte>): LengthForm
    requires |s| >= 2
  {
    if s[1] % 128 == 126 then Mid else if s[1] % 128 == 127 then Long else Short
  }

  /** The announced length suits its form, and the mask bit its mask. */
  lemma LeadFits(s: seq<byte>)
    requires ParseLead(s).Lead?
    ensures var lead := ParseLead(s);
            && |s| >= 2
            && (s[1] < 128 ==> lead.mask == []) && (s[1] >= 128 ==> |lead.mask| == 4)
            && match FormOf(s)
               case Short => lead.len < 126
               case Mid => lead.len < 0x1_0000
               case Long => lead.len < 0x1_0000_0000
  {
  }

  lemma HeaderOfLead(s: seq<byte>, f: Frame)
    requires ParseLead(s).Lead? && f.Valid()
    requires var lead := ParseLead(s);
             && f.head == s[0] && |f.payload| == lead.len
             && f.form == FormOf(s)
             && f.mask == (if s[1] < 128 then None else Some(lead.mask))
    ensures Header(f) == s[..ParseLead(s).size]
  {
    match f.form {
      case Short =>
      case Mid => OctetsOfBe16(s[2], s[3]);
      case Long => OctetsOfBe32(s[6], s[7], s[8], s[9]);
    }
  }

  /** A verdict never changes when more bytes arrive. */
  lemma ParseStable(s: seq<byte>, more: seq<byte>, cap: nat)
    requires !Parse(s, cap).Incomplete?
    ensures Parse(s + more, cap) == Parse(s, cap)
  {
    hide ParseLead, Masked;
    LeadStable(s, more);
    var lead := ParseLead(s);
    if lead.Lead? && lead.len <= cap {
      assert (s + more)[lead.size..lead.size + lead.len] == s[lead.size..lead.size + lead.len];
    }
  }

  lemma LeadStable(s: seq<byte>, more: seq<byte>)
    requires !ParseLead(s).NeedMore?
    ensures ParseLead(s + more) == ParseLead(s)
  {
    var t := s + more;
    assert forall i :: 0 <= i < |s| ==> t[i] == s[i];
    var lead := ParseLead(s);
    if lead.Lead? && lead.mask != [] {
      assert t[lead.size - 4..lead.size] == s[lead.size - 4..lead.size];
    }
  }

  /** Every strict prefix of a frame within the cap asks for more. */
  lemma StrictPrefixIncomplete(f: Frame, k: nat, cap: nat)
    requires f.Valid() && |f.payload| <= cap && k < |Encode(f)|
    ensures Parse(Encode(f)[..k], cap).Incomplete?
  {
    var s := Encode(f)[..k];
    if !Parse(s, cap).Incomplete? {
      ParseStable(s, Encode(f)[k..], cap);
      assert s + Encode(f)[k..] == Encode(f) + [];
      ParseEncode(f, [], cap);
      assert false;
    }
  }

  /** While a frame is incomplete the window stays below the longest header plus the cap. */
  lemma IncompleteIsShort(s: seq<byte>, cap: nat)
    requires Parse(s, cap).Incomplete?
    ensures |s| < 14 + cap
  {
  }

  /** `ws_build_frame` picks the shortest of the three length forms. */
  lemma ClientFrameIsShortest(payload: seq<byte>, opcode: nat, mask: seq<byte>, form: LengthForm)
    requires |mask| == 4 && |payload| < 0x1_0000_0000
    requires Frame(128 + opcode % 16, form, Some(mask), payload).Valid()
    ensures ClientFrame(payload, opcode, mask).Valid()
    ensures |Encode(ClientFrame(payload, opcode, mask))|
            <= |Encode(Frame(128 + opcode % 16, form, Some(mask), payload))|
    ensures |Encode(ClientFrame(payload, opcode, mask))| <= |payload| + 14
  {
  }

  /** The octets of section 5.2 of RFC 6455, before the payload. */
  predicate HeaderLayout(w: seq<byte>, f: Frame, h: nat) {
    var bit, n := if f.mask.Some? then 128 else 0, |f.payload|;
    && |w| == h + n
    && h == (match f.form case Short => 2 case Mid => 4 case Long => 10) + (if f.mask.Some? then 4 else 0)
    && w[0] == f.head
    && (match f.form
        case Short => w[1] == bit + n
        case Mid => w[1] == bit + 126 && BigEndian(w[2..4]) == n
        case Long => w[1] == bit + 127 && w[2..6] == [0, 0, 0, 0] && BigEndian(w[6..10]) == n)
    && (f.mask.Some? ==> w[h - 4..h] == f.mask.value)
  }

  /** The octets of the payload, each bit flipped where the mask octet in turn has a one. */
  predicate PayloadLayout(w: seq<byte>, f: Frame, h: nat) {
    && |w| == h + |f.payload| && (f.mask.Some? ==> |f.mask.value| == 4)
    && forall i :: 0 <= i < |f.payload| ==> OctetLayout(w[h + i], f.payload[i], f.mask, i)
  }

  predicate OctetLayout(written: byte, octet: byte, mask: Option<seq<byte>>, i: nat)
    requires mask.Some? ==> |mask.value| == 4
  {
    match mask
    case None => written == octet
    case Some(m) => forall k :: 0 <= k < 8 ==> Bit(written, k) == (Bit(octet, k) + Bit(m[i % 4], k)) % 2
  }

  /** Every frame on the wire, octet by octet. */
  lemma WireLayout(f: Frame)
    requires f.Valid()
    ensures HeaderLayout(Encode(f), f, |Encode(f)| - |f.payload|)
    ensures PayloadLayout(Encode(f), f, |Encode(f)| - |f.payload|)
  {
    hide Header, BigEndian, PayloadLayout;
    HeaderOctets(f);
    var w, h := Encode(f), |Header(f)|;
    SameHeader(Header(f), f.payload, if f.mask.Some? then Masked(f.payload, f.mask.value) else f.payload, f);
    PayloadOctets(f, w, h);
  }

  /** The header does not depend on how the payload is written. */
  lemma SameHeader(e: seq<byte>, p: seq<byte>, q: seq<byte>, f: Frame)
    requires f.Valid() && |p| == |q| == |f.payload| && HeaderLayout(e + p, f, |e|)
    ensures HeaderLayout(e + q, f, |e|)
  {
    hide BigEndian;
    var h := |e|;
    assert forall i :: 0 <= i < h ==> (e + p)[i] == (e + q)[i];
    assert forall i, j :: 0 <= i <= j <= h ==> (e + p)[i..j] == (e + q)[i..j];
  }

  lemma HeaderOctets(f: Frame)
    requires f.Valid()
    ensures var e := Header(f); HeaderLayout(e + f.payload, f, |e|)
  {
    var n, e := |f.payload|, Header(f);
    match f.form {
      case Short =>
      case Mid =>
        Be16OfOctets(n);
        BigEndianTwo(Octet(n, 1), Octet(n, 0));
        assert (e + f.payload)[2..4] == [Octet(n, 1), Octet(n, 0)];
      case Long =>
        Be32OfOctets(n);
        BigEndianFour(Octet(n, 3), Octet(n, 2), Octet(n, 1), Octet(n, 0));
        assert (e + f.payload)[6..10] == [Octet(n, 3), Octet(n, 2), Octet(n, 1), Octet(n, 0)];
        assert (e + f.payload)[2..6] == [0, 0, 0, 0];
    }
    hide Octet, BigEndian;
    if f.mask.Some? { assert e[|e| - 4..] == f.mask.value && (e + f.payload)[|e| - 4..|e|] == e[|e| - 4..]; }
  }

  lemma PayloadOctets(f: Frame, w: seq<byte>, h: nat)
    requires f.Valid() && h == |Header(f)| && w == Encode(f) && |w| == h + |f.payload|
    ensures PayloadLayout(w, f, h)
  {
    hide Header, OctetLayout, Masked;
    var body := if f.mask.Some? then Masked(f.payload, f.mask.value) else f.payload;
    forall i | 0 <= i < |f.payload| ensures OctetLayout(w[h + i], f.payload[i], f.mask, i) {
      assert w[h + i] == body[i];
      MaskedOctet(f.payload, f.mask, i);
    }
  }

  lemma MaskedOctet(payload: seq<byte>, mask: Option<seq<byte>>, i: nat)
    requires i < |payload| && (mask.Some? ==> |mask.value| == 4)
    ensures OctetLayout((if mask.Some? then Masked(payload, mask.value) else payload)[i], payload[i], mask, i)
  {
    hide Bit, Xor;
    if mask.Some? { XorIsBitwise(payload[i], mask.value[i % 4]); }
  }

  /** What the client writes: final, masked, the shortest form, and the text masked bit by bit. */
  lemma ClientWire(payload: seq<byte>, opcode: nat, mask: seq<byte>)
    requires |mask| == 4 && ClientFrame(payload, opcode, mask).Valid()
    ensures var w, n := Encode(ClientFrame(payload, opcode, mask)), |payload|;
            var h := |w| - n;
            && h == (if n < 126 then 6 else if n < 0x1_0000 then 8 else 14)
            && w[0] == 128 + opcode % 16 && w[1] >= 128
            && w[h - 4..h] == mask
            && forall i :: 0 <= i < n ==> OctetLayout(w[h + i], payload[i], Some(mask), i)
  {
    hide Encode, OctetLayout;
    WireLayout(ClientFrame(payload, opcode, mask));
  }

  /** A built frame is read back as final, with the low four opcode bits and the payload. */
  lemma BuiltFrameRoundTrip(payload: seq<byte>, opcode: nat, mask: seq<byte>, rest: seq<byte>, cap: nat)
    requires |mask| == 4 && |payload| < 0x1_0000_0000 && |payload| <= cap
    requires ClientFrame(payload, opcode, mask).Valid()
    ensures Parse(Encode(ClientFrame(payload, opcode, mask)) + rest, cap)
         == Ok(|Encode(ClientFrame(payload, opcode, mask))|, true, opcode % 16, payload)
  {
    var f := ClientFrame(payload, opcode, mask);
    OpcodeOfHead(opcode);
    assert f.Opcode() == opcode % 16 && f.Fin();
    ParseEncode(f, rest, cap);
  }

  lemma OpcodeOfHead(opcode: nat)
    ensures (128 + opcode % 16) % 16 == opcode % 16
  {
  }

  lemma ClientFrameIsMasked(payload: seq<byte>, opcode: nat, mask: seq<byte>)
    requires |mask| == 4 && ClientFrame(payload, opcode, mask).Valid()
    ensures |Encode(ClientFrame(payload, opcode, mask))| >= 2 && Encode(ClientFrame(payload, opcode, mask))[1] >= 128
  {
    var n := |payload|;
    assert LengthBytes(MinimalForm(n), true, n)[0] >= 128;
  }

  // ---- the C functions ----

  /** The part of `ws_build_frame` before the payload. */
  method WriteHeader(out: array<byte>, plen: nat, opcode: nat, mask: seq<byte>, ghost f: Frame) returns (h: nat)
    requires |mask| == 4 && f.Valid() && f == ClientFrame(f.payload, opcode, mask) && |f.payload| == plen
    requires out.Length >= plen + 14
    modifies out
    ensures h == |Header(f)| <= 14 && out[..h] == Header(f)
  {
    hide LengthBytes;
    h := WriteLength(out, plen, opcode, f.form);
    ghost var start := out[..h];
    out[h], out[h + 1], out[h + 2], out[h + 3] := mask[0], mask[1], mask[2], mask[3];
    assert out[..h] == start && out[h..h + 4] == mask;
    assert out[..h + 4] == out[..h] + out[h..h + 4];
    h := h + 4;
  }

  /** The first byte and the length in the form that fits it. */
  method WriteLength(out: array<byte>, plen: nat, opcode: nat, ghost form: LengthForm) returns (h: nat)
    requires out.Length >= 10 && plen < 0x1_0000_0000
    requires form == if plen < 126 then Short else if plen < 65536 then Mid else Long
    modifies out
    ensures 2 <= h <= 10 && h == 1 + |LengthBytes(form, true, plen)|
    ensures out[..h] == [128 + opcode % 16] + LengthBytes(form, true, plen)
  {
    hide Octet;
    out[0] := 128 + opcode % 16;
    if plen < 126 {
      out[1] := 128 + plen;
      h := 2;
    } else if plen < 65536 {
      out[1] := 128 + 126;
      out[2] := Octet(plen, 1);
      out[3] := Octet(plen, 0);
      h := 4;
    } else {
      out[1] := 128 + 127;
      out[2], out[3], out[4], out[5] := 0, 0, 0, 0;
      out[6] := Octet(plen, 3);
      out[7] := Octet(plen, 2);
      out[8] := Octet(plen, 1);
      out[9] := Octet(plen, 0);
      h := 10;
    }
    assert out[1..h] == LengthBytes(form, true, plen);
    assert out[..h] == [out[0]] + out[1..h];
  }

  /** `ws_build_frame`: -1 when the frame might not fit, otherwise its length. */
  method BuildFrame(out: array<byte>, pay: array<byte>, plen: nat, opcode: nat, mask: seq<byte>) returns (n: int)
    requires plen <= pay.Length && plen < 0x8000_0000 && |mask| == 4 && out != pay
    modifies out
    ensures n == -1 <==> out.Length < plen + 14
    ensures n == -1 ==> out[..] == old(out[..])
    ensures n != -1 ==> ClientFrame(pay[..plen], opcode, mask).Valid()
    ensures n != -1 ==> 0 <= n <= out.Length && out[..n] == Encode(ClientFrame(pay[..plen], opcode, mask))
  {
    hide Header, LengthBytes;
    if out.Length < plen + 14 { return -1; }
    ghost var payload := pay[..plen];
    ghost var f := ClientFrame(payload, opcode, mask);
    var h := WriteHeader(out, plen, opcode, mask, f);
    ghost var masked := Masked(payload, mask);
    var i := 0;
    while i < plen
      invariant 0 <= i <= plen
      invariant out[..h] == Header(f)
      invariant forall k :: 0 <= k < i ==> out[h + k] == masked[k]
      invariant pay[..plen] == payload
    {
      assert pay[i] == payload[i];
      out[h + i] := Xor(pay[i], mask[i % 4]);
      i := i + 1;
    }
    assert out[..h + plen] == out[..h] + masked;
    n := h + plen;
  }

  /** The part of `ws_parse_frame` before the payload. */
  method ReadLead(inbuf: array<byte>, off: nat, inlen: nat) returns (r: Lead)
    requires off + inlen <= inbuf.Length
    ensures r == ParseLead(inbuf[off..off + inlen])
  {
    hide Be16, Be32;
    if inlen < 2 { return NeedMore; }
    ghost var s := inbuf[off..off + inlen];
    assert forall k :: 0 <= k < inlen ==> s[k] == inbuf[off + k];
    var len: nat := inbuf[off + 1] % 128;
    var h := 2;
    if len == 126 {
      if inlen < 4 { return NeedMore; }
      len := Be16(inbuf[off + 2], inbuf[off + 3]);
      h := 4;
    } else if len == 127 {
      if inlen < 10 { return NeedMore; }
      if inbuf[off + 2] != 0 || inbuf[off + 3] != 0 || inbuf[off + 4] != 0 || inbuf[off + 5] != 0 {
        return Reject;
      }
      len := Be32(inbuf[off + 6], inbuf[off + 7], inbuf[off + 8], inbuf[off + 9]);
      h := 10;
    }
    assert ParseLead(s) == MaskAt(s, h, len);
    if inbuf[off + 1] < 128 { return Lead(h, len, []); }
    if inlen < h + 4 { return NeedMore; }
    var mk := [inbuf[off + h], inbuf[off + h + 1], inbuf[off + h + 2], inbuf[off + h + 3]];
    FourAt(s, h);
    assert s[h + 3] == inbuf[off + (h + 3)];
    r := Lead(h + 4, len, mk);
  }

  lemma FourAt(s: seq<byte>, h: nat)
    requires h + 4 <= |s|
    ensures s[h..h + 4] == [s[h], s[h + 1], s[h + 2], s[h + 3]]
  {
  }

  /** `ws_parse_frame` on the `inlen` bytes at `inbuf + off`: 0 for incomplete, -1 for bad. */
  method ParseFrame(inbuf: array<byte>, off: nat, inlen: nat, pay: array<byte>)
    returns (r: int, fin: bool, opcode: nat, paylen: nat)
    requires off + inlen <= inbuf.Length && inbuf != pay
    modifies pay
    ensures paylen <= pay.Length
    ensures match Parse(inbuf[off..off + inlen], pay.Length)
            case Incomplete => r == 0
            case Bad => r == -1
            case Ok(consumed, f, op, data) =>
              r == consumed > 0 && r <= inlen && fin == f && opcode == op && pay[..paylen] == data
  {
    hide ParseLead, Masked;
    ghost var s := inbuf[off..off + inlen];
    fin, opcode, paylen := false, 0, 0;
    var lead := ReadLead(inbuf, off, inlen);
    if lead.NeedMore? { return 0, fin, opcode, paylen; }
    if lead.Reject? { return -1, fin, opcode, paylen; }
    var h, len, mk := lead.size, lead.len, lead.mask;
    fin := inbuf[off] >= 128;
    opcode := inbuf[off] % 16;
    if len > pay.Length { return -1, fin, opcode, paylen; }
    if inlen < h + len { return 0, fin, opcode, paylen; }
    CopyPayload(inbuf, off, h, len, mk, pay, s);
    paylen := len;
    r := h + len;
  }

  /** The copy loop of `ws_parse_frame`, unmasking as it goes; `s` is the window at `off`. */
  method CopyPayload(inbuf: array<byte>, off: nat, h: nat, len: nat, mk: seq<byte>, pay: array<byte>,
      ghost s: seq<byte>)
    requires off + |s| <= inbuf.Length && s == inbuf[off..off + |s|] && h + len <= |s|
    requires len <= pay.Length && inbuf != pay && (mk == [] || |mk| == 4)
    modifies pay
    ensures inbuf[off..off + |s|] == s
    ensures pay[..len] == if mk == [] then s[h..h + len] else Masked(s[h..h + len], mk)
  {
    var i := 0;
    while i < len
      invariant 0 <= i <= len && inbuf[off..off + |s|] == s
      invariant forall k :: 0 <= k < i ==> pay[k] == if mk == [] then s[h + k] else Xor(s[h + k], mk[k % 4])
    {
      var b := inbuf[off + h + i];
      assert b == s[h + i];
      if mk != [] { b := Xor(b, mk[i % 4]); }
      pay[i] := b;
      i := i + 1;
    }
  }
}
