/** The DNS responder of the virtual network (sections 4.1.1 to 4.1.4 of RFC 1035). */
module Dns {
  import opened Base
  import opened VirtualNetwork

  const TYPE_A := 1
  const CLASS_IN := 1
  const FLAGS_NO_ERROR: seq<byte> := [0x81, 0x80]
  const FLAGS_NAME_ERROR: seq<byte> := [0x81, 0x83]
  const HEADER := 12
  const RECORD := 16
  const TTL_SECONDS := 30

  type Bytes = seq<byte>

  /** A name is held as one character per byte of its UTF-8 form. */
  datatype DnsQuery = DnsQuery(name: string, qtype: nat, qclass: nat, questionEnd: nat)

  // ------------------------------------------------------------------------ UTF-8

  predicate Continuation(b: byte) {
    0x80 <= b <= 0xBF
  }

  /** Length of the well-formed UTF-8 sequence `s` starts with, or 0. */
  function Utf8Head(s: Bytes): (n: nat)
    ensures n <= |s|
  {
    if s == [] then 0
    else if s[0] < 0x80 then 1
    else if 0xC2 <= s[0] <= 0xDF && |s| >= 2 && Continuation(s[1]) then 2
    else if |s| >= 3 && Continuation(s[2]) &&
            ((s[0] == 0xE0 && 0xA0 <= s[1] <= 0xBF) || (s[0] == 0xED && 0x80 <= s[1] <= 0x9F) ||
             (((0xE1 <= s[0] <= 0xEC) || 0xEE <= s[0] <= 0xEF) && Continuation(s[1]))) then 3
    else if |s| >= 4 && Continuation(s[2]) && Continuation(s[3]) &&
            ((s[0] == 0xF0 && 0x90 <= s[1] <= 0xBF) || (s[0] == 0xF4 && 0x80 <= s[1] <= 0x8F) ||
             (0xF1 <= s[0] <= 0xF3 && Continuation(s[1]))) then 4
    else 0
  }

  predicate ValidUtf8(s: Bytes) {
    s == [] || (Utf8Head(s) > 0 && ValidUtf8(s[Utf8Head(s)..]))
  }

  lemma {:induction false} AsciiIsUtf8(s: Bytes)
    requires forall i :: 0 <= i < |s| ==> s[i] < 0x80
    ensures ValidUtf8(s)
  {
    if s != [] {
      AsciiIsUtf8(s[1..]);
    }
  }

  // ------------------------------------------------------------------ names

  predicate ValidLabel(l: Bytes) {
    1 <= |l| <= 63 && ValidUtf8(l)
  }

  predicate ValidLabels(labels: seq<Bytes>) {
    forall i :: 0 <= i < |labels| ==> ValidLabel(labels[i])
  }

  function EncodeLabels(labels: seq<Bytes>): Bytes
    requires ValidLabels(labels)
  {
    if labels == [] then [0]
    else
      assert ValidLabel(labels[0]);
      var len: byte := |labels[0]|;
      [len] + labels[0] + EncodeLabels(labels[1..])
  }

  function Chars(b: Bytes): (s: string)
    ensures |s| == |b|
    ensures forall i :: 0 <= i < |b| ==> s[i] as int == b[i]
  {
    seq(|b|, i requires 0 <= i < |b| => b[i] as char)
  }

  /** `labels.join(".")`. */
  function Dotted(labels: seq<Bytes>): string {
    if labels == [] then ""
    else if |labels| == 1 then Chars(labels[0])
    else Chars(labels[0]) + "." + Dotted(labels[1..])
  }

  datatype Name = Name(labels: seq<Bytes>, end: nat)

  function Prepend(l: Bytes, n: Option<Name>): Option<Name> {
    if n.None? then None else Some(Name([l] + n.value.labels, n.value.end))
  }

  /** Labels from `offset` up to and including the zero byte, and where they end. */
  function ParseLabels(packet: Bytes, offset: nat): (n: Option<Name>)
    requires offset <= |packet|
    ensures n.Some? ==> offset < n.value.end <= |packet|
    decreases |packet| - offset
  {
    if offset >= |packet| then None
    else
      var len := packet[offset];
      var start := offset + 1;
      if len == 0 then Some(Name([], start))
      else if len > 63 || start + len > |packet| || !ValidUtf8(packet[start..start + len]) then None
      else Prepend(packet[start..start + len], ParseLabels(packet, start + len))
  }

  function U16(hi: byte, lo: byte): nat {
    256 * hi + lo
  }

  function Parse(packet: Bytes): (q: Option<DnsQuery>)
    ensures q.Some? ==> HEADER + 5 <= q.value.questionEnd <= |packet|
  {
    if |packet| < HEADER || U16(packet[4], packet[5]) != 1 then None
    else
      match ParseLabels(packet, HEADER)
      case None => None
      case Some(n) =>
        if n.end + 4 > |packet| then None
        else Some(DnsQuery(AsciiLower(Dotted(n.labels)), U16(packet[n.end], packet[n.end + 1]),
                           U16(packet[n.end + 2], packet[n.end + 3]), n.end + 4))
  }

  lemma PrependAll(acc: seq<Bytes>, l: Bytes, rest: Option<Name>)
    ensures Accumulated(acc + [l], rest) == Accumulated(acc, Prepend(l, rest))
  {
    if rest.Some? {
      assert acc + [l] + rest.value.labels == acc + ([l] + rest.value.labels);
    }
  }

  function Accumulated(acc: seq<Bytes>, rest: Option<Name>): (n: Option<Name>)
    ensures acc == [] ==> n == rest
  {
    assert acc == [] && rest.Some? ==> acc + rest.value.labels == rest.value.labels;
    if rest.None? then None else Some(Name(acc + rest.value.labels, rest.value.end))
  }

  /** The label loop of `parse_query`, with every index in bounds. */
  method ReadName(packet: Bytes, from: nat) returns (name: Option<Name>)
    requires from <= |packet|
    ensures name == ParseLabels(packet, from)
  {
    var offset := from;
    var labels: seq<Bytes> := [];
    while offset < |packet|
      invariant from <= offset <= |packet|
      invariant ParseLabels(packet, from) == Accumulated(labels, ParseLabels(packet, offset))
      decreases |packet| - offset
    {
      var len := packet[offset];
      if len == 0 {
        assert labels + [] == labels;
        return Some(Name(labels, offset + 1));
      }
      if len > 63 || offset + 1 + len > |packet| {
        return None;
      }
      var l := packet[offset + 1..offset + 1 + len];
      if !ValidUtf8(l) {
        return None;
      }
      PrependAll(labels, l, ParseLabels(packet, offset + 1 + len));
      labels := labels + [l];
      offset := offset + 1 + len;
    }
    name := None;
  }

  /** `parse_query`. */
  method ParseQuery(packet: Bytes) returns (q: Option<DnsQuery>)
    ensures q == Parse(packet)
  {
    if |packet| < HEADER || U16(packet[4], packet[5]) != 1 {
      return None;
    }
    var name := ReadName(packet, HEADER);
    if name.None? || name.value.end + 4 > |packet| {
      return None;
    }
    var labels, offset := name.value.labels, name.value.end;
    q := Some(DnsQuery(AsciiLower(Dotted(labels)), U16(packet[offset], packet[offset + 1]),
                       U16(packet[offset + 2], packet[offset + 3]), offset + 4));
  }

  // -------------------------------------------------------------- response

  function AnswerRecord(a: Ipv4): (r: Bytes)
    ensures |r| == RECORD
  {
    [0xc0, 0x0c] + [0, TYPE_A] + [0, CLASS_IN] + [0, 0, 0, TTL_SECONDS] + [0, 4] + [a.a, a.b, a.c, a.d]
  }

  /** The response, section by section. */
  function Response(request: Bytes, end: nat, addr: Option<Ipv4>): Bytes
    requires HEADER <= end <= |request|
  {
    request[..2]
    + (if addr.Some? then FLAGS_NO_ERROR else FLAGS_NAME_ERROR)
    + request[4..6]
    + (if addr.Some? then [0, 1] else [0, 0])
    + [0, 0, 0, 0]
    + request[HEADER..end]
    + (if addr.Some? then AnswerRecord(addr.value) else [])
  }

  function Patch(s: Bytes, i: nat, b: Bytes): (t: Bytes)
    requires i + |b| <= |s|
    ensures |t| == |s|
    ensures forall j :: 0 <= j < |s| ==> t[j] == if i <= j < i + |b| then b[j - i] else s[j]
  {
    s[..i] + b + s[i + |b|..]
  }

  /** Byte by byte: header fields 2-3 and 6-11 are new, the rest is the request's. */
  lemma ResponseBytes(request: Bytes, end: nat, addr: Option<Ipv4>, i: nat)
    requires HEADER <= end <= |request| && i < end
    ensures var r := Response(request, end, addr);
            && |r| >= end
            && r[i] == if i == 2 then 0x81
                       else if i == 3 then (if addr.Some? then 0x80 else 0x83)
                       else if i == 7 then (if addr.Some? then 1 else 0)
                       else if i == 6 || 8 <= i < HEADER then 0
                       else request[i]
  {
  }

  /** `emit_response`: copies the request and overwrites the header in place. */
  method EmitResponse(request: Bytes, end: nat, addr: Option<Ipv4>) returns (response: Bytes)
    requires HEADER <= end <= |request|
    ensures response == Response(request, end, addr)
  {
    response := request[..end];
    response := Patch(response, 2, if addr.Some? then FLAGS_NO_ERROR else FLAGS_NAME_ERROR);
    response := Patch(response, 6, if addr.Some? then [0, 1] else [0, 0]);
    response := Patch(response, 8, [0, 0]);
    response := Patch(response, 10, [0, 0]);
    forall i | 0 <= i < end
      ensures response[i] == Response(request, end, addr)[i]
    {
      ResponseBytes(request, end, addr, i);
    }
    assert response == Response(request, end, addr)[..end];
    if addr.Some? {
      response := response + AnswerRecord(addr.value);
    }
  }

  function AnswerAddr(net: Network, q: DnsQuery): Option<Ipv4> {
    match ResolveHostname(net, q.name)
    case None => None
    case Some(v) => if q.qtype == TYPE_A && q.qclass == CLASS_IN then Some(v.addr) else None
  }

  function AnswerQuery(packet: Bytes, net: Network): Option<Bytes> {
    match Parse(packet)
    case None => None
    case Some(q) => Some(Response(packet, q.questionEnd, AnswerAddr(net, q)))
  }

  // ----------------------------------------------------------- names round trip

  lemma Halves(s: Bytes, l: Bytes, rest: Bytes)
    requires s == l + rest
    ensures s[..|l|] == l && s[|l|..] == rest
  {
  }

  lemma SliceParts(packet: Bytes, offset: nat, end: nat, len: byte, l: Bytes, rest: Bytes)
    requires offset <= end <= |packet| && packet[offset..end] == [len] + l + rest
    ensures end == offset + 1 + |l| + |rest| && packet[offset] == len
    ensures packet[offset + 1..offset + 1 + |l|] == l
    ensures packet[offset + 1 + |l|..end] == rest
  {
    var s := packet[offset..end];
    assert s[0] == packet[offset] && s == [len] + (l + rest);
    assert packet[offset + 1..end] == s[1..] == l + rest;
    Halves(packet[offset + 1..end], l, rest);
    assert packet[offset + 1..offset + 1 + |l|] == packet[offset + 1..end][..|l|];
    assert packet[offset + 1 + |l|..end] == packet[offset + 1..end][|l|..];
  }

  /** Encoded labels parse back to themselves wherever they stand. */
  lemma {:induction false} ParseEncoded(labels: seq<Bytes>, packet: Bytes, offset: nat, end: nat)
    requires ValidLabels(labels) && offset <= end <= |packet| && packet[offset..end] == EncodeLabels(labels)
    ensures ParseLabels(packet, offset) == Some(Name(labels, end))
    decreases |labels|
  {
    if labels == [] {
      assert packet[offset] == packet[offset..end][0];
    } else {
      var l := labels[0];
      assert ValidLabel(l);
      SliceParts(packet, offset, end, |l|, l, EncodeLabels(labels[1..]));
      ParseEncoded(labels[1..], packet, offset + 1 + |l|, end);
      assert [l] + labels[1..] == labels;
    }
  }

  lemma EncodeCons(l: Bytes, rest: seq<Bytes>)
    requires ValidLabel(l) && ValidLabels(rest)
    ensures ValidLabels([l] + rest)
    ensures var len: byte := |l|; EncodeLabels([l] + rest) == [len] + l + EncodeLabels(rest)
  {
    assert ([l] + rest)[1..] == rest;
  }

  lemma LabelThenRest(packet: Bytes, offset: nat, len: byte, end: nat)
    requires offset + 1 + len <= end <= |packet| && packet[offset] == len
    ensures packet[offset..end] == [len] + packet[offset + 1..offset + 1 + len] + packet[offset + 1 + len..end]
  {
  }

  /** Whatever labels are parsed, the bytes are their encoding. */
  lemma {:induction false} ParsedIsEncoding(packet: Bytes, offset: nat)
    requires offset <= |packet| && ParseLabels(packet, offset).Some?
    ensures var n := ParseLabels(packet, offset).value;
            && ValidLabels(n.labels)
            && packet[offset..n.end] == EncodeLabels(n.labels)
    decreases |packet| - offset
  {
    var len := packet[offset];
    var start := offset + 1;
    if len == 0 {
      assert packet[offset..start] == [0];
    } else {
      var l := packet[start..start + len];
      var rest := ParseLabels(packet, start + len).value;
      ParsedIsEncoding(packet, start + len);
      EncodeCons(l, rest.labels);
      LabelThenRest(packet, offset, len, rest.end);
    }
  }

  /** A packet that agrees on those bytes parses to the same labels. */
  lemma ParseLabelsLocal(p: Bytes, q: Bytes, offset: nat)
    requires offset <= |p| && offset <= |q| && ParseLabels(p, offset).Some?
    requires var end := ParseLabels(p, offset).value.end; end <= |q| && p[offset..end] == q[offset..end]
    ensures ParseLabels(q, offset) == ParseLabels(p, offset)
  {
    var n := ParseLabels(p, offset).value;
    ParsedIsEncoding(p, offset);
    ParseEncoded(n.labels, q, offset, n.end);
  }

  /** A question as a client writes it: header, name, type and class. */
  function Question(header: Bytes, labels: seq<Bytes>, qtype: Bytes, qclass: Bytes): Bytes
    requires ValidLabels(labels)
  {
    header + EncodeLabels(labels) + qtype + qclass
  }

  /** Writing a query and parsing it gives back the lowercased name, whatever follows it. */
  lemma {:induction false} ParseQuestion(header: Bytes, labels: seq<Bytes>, qtype: Bytes, qclass: Bytes, tail: Bytes)
    requires |header| == HEADER && header[4..6] == [0, 1] && |qtype| == 2 && |qclass| == 2
    requires ValidLabels(labels)
    ensures Parse(Question(header, labels, qtype, qclass) + tail) ==
            Some(DnsQuery(AsciiLower(Dotted(labels)), U16(qtype[0], qtype[1]), U16(qclass[0], qclass[1]),
                          |Question(header, labels, qtype, qclass)|))
  {
    var e := EncodeLabels(labels);
    var packet := Question(header, labels, qtype, qclass) + tail;
    QuestionParts(header, e, qtype, qclass, tail);
    ParseEncoded(labels, packet, HEADER, HEADER + |e|);
  }

  /** Where the parts of a question stand. */
  lemma {:induction false} QuestionParts(header: Bytes, e: Bytes, qtype: Bytes, qclass: Bytes, tail: Bytes)
    requires |header| == HEADER && header[4..6] == [0, 1] && |qtype| == 2 && |qclass| == 2
    ensures var packet := header + e + qtype + qclass + tail;
            var end := HEADER + |e|;
            && packet[4] == 0 && packet[5] == 1 && packet[HEADER..end] == e
            && packet[end] == qtype[0] && packet[end + 1] == qtype[1]
            && packet[end + 2] == qclass[0] && packet[end + 3] == qclass[1]
  {
    assert header[4] == header[4..6][0] && header[5] == header[4..6][1];
  }

  lemma Cut(s: Bytes, i: nat, j: nat)
    requires i <= j && j + 4 <= |s|
    ensures s[..j + 4] == s[..i] + s[i..j] + s[j..j + 2] + s[j + 2..j + 4]
  {
  }

  /** Every accepted packet carries the canonical encoding of the name it is read as. */
  lemma AcceptedIsQuestion(packet: Bytes)
    requires Parse(packet).Some?
    ensures var n := ParseLabels(packet, HEADER).value;
            && ParseLabels(packet, HEADER).Some?
            && ValidLabels(n.labels) && packet[4] == 0 && packet[5] == 1
            && Parse(packet).value.name == AsciiLower(Dotted(n.labels))
            && packet[..Parse(packet).value.questionEnd] ==
               Question(packet[..HEADER], n.labels, packet[n.end..n.end + 2], packet[n.end + 2..n.end + 4])
  {
    ParsedIsEncoding(packet, HEADER);
    Cut(packet, HEADER, ParseLabels(packet, HEADER).value.end);
  }

  // ------------------------------------------------------------ the response

  /** The answer a resolver reads out of a response of this shape. */
  function ReadAnswer(response: Bytes, end: nat): Option<Ipv4> {
    if |response| == end + RECORD && response[6..8] == [0, 1]
       && response[end..end + RECORD - 4] == AnswerRecord(Ipv4(0, 0, 0, 0))[..RECORD - 4]
    then Some(Ipv4(response[end + 12], response[end + 13], response[end + 14], response[end + 15]))
    else None
  }

  lemma ResponseLayout(request: Bytes, end: nat, addr: Option<Ipv4>)
    requires HEADER <= end <= |request|
    ensures var r := Response(request, end, addr);
            && |r| == end + (if addr.Some? then RECORD else 0)
            && r[..2] == request[..2]
            && r[2..4] == (if addr.Some? then FLAGS_NO_ERROR else FLAGS_NAME_ERROR)
            && r[4..6] == request[4..6]
            && r[6..8] == (if addr.Some? then [0, 1] else [0, 0])
            && U16(r[6], r[7]) * RECORD == |r| - end
            && r[8..HEADER] == [0, 0, 0, 0]
            && r[HEADER..end] == request[HEADER..end]
            && r[end..] == (if addr.Some? then AnswerRecord(addr.value) else [])
  {
  }

  lemma SameFront(p: Bytes, r: Bytes, from: nat, mid: nat, end: nat)
    requires from <= mid <= end <= |p| && end <= |r| && r[from..end] == p[from..end]
    ensures r[from..mid] == p[from..mid]
  {
    assert r[from..mid] == r[from..end][..mid - from];
    assert p[from..mid] == p[from..end][..mid - from];
  }

  /** The response still asks the question. */
  lemma ResponseReparses(packet: Bytes, addr: Option<Ipv4>)
    requires Parse(packet).Some?
    ensures Parse(Response(packet, Parse(packet).value.questionEnd, addr)) == Parse(packet)
  {
    var q := Parse(packet).value;
    var r := Response(packet, q.questionEnd, addr);
    var n := ParseLabels(packet, HEADER).value;
    ResponseLayout(packet, q.questionEnd, addr);
    ResponseBytes(packet, q.questionEnd, addr, 4);
    ResponseBytes(packet, q.questionEnd, addr, 5);
    forall i | n.end <= i < n.end + 4
      ensures r[i] == packet[i]
    {
      ResponseBytes(packet, q.questionEnd, addr, i);
    }
    SameFront(packet, r, HEADER, n.end, q.questionEnd);
    ParseLabelsLocal(packet, r, HEADER);
  }

  lemma {:induction false} ResponseAnswers(packet: Bytes, end: nat, addr: Option<Ipv4>)
    requires HEADER <= end <= |packet|
    ensures ReadAnswer(Response(packet, end, addr), end) == addr
  {
    var r := Response(packet, end, addr);
    ResponseLayout(packet, end, addr);
    ResponseBytes(packet, end, addr, 6);
    ResponseBytes(packet, end, addr, 7);
    if addr.Some? {
      assert r[6..8] == [r[6], r[7]];
      assert r[end..end + 12] == r[end..][..12];
      assert AnswerRecord(addr.value)[..12] == AnswerRecord(Ipv4(0, 0, 0, 0))[..12];
      assert r[end + 12] == r[end..][12] && r[end + 13] == r[end..][13];
      assert r[end + 14] == r[end..][14] && r[end + 15] == r[end..][15];
    }
  }

  /** For every accepted packet: the response keeps the id and the question bytes, re-parses
      to the same query, announces exactly the records it carries, and those records say the
      address the name resolves to, for A/IN questions only. */
  lemma ResponseIsFaithful(packet: Bytes, net: Network)
    requires Parse(packet).Some?
    ensures AnswerQuery(packet, net).Some?
    ensures var q, r := Parse(packet).value, AnswerQuery(packet, net).value;
            && |r| >= q.questionEnd
            && r[..2] == packet[..2]
            && r[HEADER..q.questionEnd] == packet[HEADER..q.questionEnd]
            && Parse(r) == Some(q)
            && U16(r[6], r[7]) * RECORD == |r| - q.questionEnd
            && r[2..4] == (if AnswerAddr(net, q).Some? then FLAGS_NO_ERROR else FLAGS_NAME_ERROR)
            && ReadAnswer(r, q.questionEnd) == AnswerAddr(net, q)
  {
    var q := Parse(packet).value;
    ResponseLayout(packet, q.questionEnd, AnswerAddr(net, q));
    ResponseReparses(packet, AnswerAddr(net, q));
    ResponseAnswers(packet, q.questionEnd, AnswerAddr(net, q));
  }

  // ------------------------------------------------------------- which answer

  /** Service `i` is the last one published under the name `h`. */
  predicate LastNamed(services: seq<VirtualService>, h: string, i: nat) {
    && i < |services| && services[i].hostname == h
    && forall j :: i < j < |services| ==> services[j].hostname != h
  }

  lemma ResolvesTo(net: Network, name: string)
    requires Indexed(net)
    ensures var h := AsciiLower(TrimDots(name));
            && (ResolveHostname(net, name).None? <==>
                forall j :: 0 <= j < |net.services| ==> net.services[j].hostname != h)
            && forall i: nat :: LastNamed(net.services, h, i) ==> ResolveHostname(net, name) == Some(net.services[i])
  {
    LastFinds(net.services, AsciiLower(TrimDots(name)));
  }

  lemma {:induction false} NegativeResponse(request: Bytes, end: nat)
    requires HEADER <= end <= |request|
    ensures var r := Response(request, end, None);
            |r| == end && r[2..4] == [0x81, 0x83] && r[6..8] == [0, 0]
  {
    ResponseLayout(request, end, None);
  }

  lemma RecordBytes(a: Ipv4)
    ensures AnswerRecord(a) == [0xc0, 12, 0, 1, 0, 1, 0, 0, 0, 30, 0, 4, a.a, a.b, a.c, a.d]
  {
  }

  lemma {:induction false} PositiveResponse(request: Bytes, end: nat, a: Ipv4)
    requires HEADER <= end <= |request|
    ensures var r := Response(request, end, Some(a));
            && |r| == end + 16 && r[2..4] == [0x81, 0x80] && r[6..8] == [0, 1]
            && r[end..] == [0xc0, 12, 0, 1, 0, 1, 0, 0, 0, 30, 0, 4, a.a, a.b, a.c, a.d]
  {
    ResponseLayout(request, end, Some(a));
    RecordBytes(a);
  }

  /** A question that is not for an IPv4 address of class IN, or whose name is not published,
      gets the name error and nothing else. */
  lemma {:induction false} NameErrorOtherwise(packet: Bytes, net: Network)
    requires Parse(packet).Some? && Indexed(net)
    requires var q := Parse(packet).value;
             || q.qtype != 1 || q.qclass != 1
             || forall i :: 0 <= i < |net.services| ==> net.services[i].hostname != AsciiLower(TrimDots(q.name))
    ensures var r, end := AnswerQuery(packet, net), Parse(packet).value.questionEnd;
            r.Some? && |r.value| == end && r.value[2..4] == [0x81, 0x83] && r.value[6..8] == [0, 0]
  {
    var q := Parse(packet).value;
    ResolvesTo(net, q.name);
    NegativeResponse(packet, q.questionEnd);
  }

  /** A question for the IPv4 address of a published name gets exactly one record: a reference
      to the name in the question, type A, class IN, half a minute to live, and the four bytes
      of the address of the last service published under that name. */
  lemma {:induction false} AddressOfLastNamed(packet: Bytes, net: Network, i: nat)
    requires Parse(packet).Some? && Indexed(net)
    requires var q := Parse(packet).value;
             q.qtype == 1 && q.qclass == 1 && LastNamed(net.services, AsciiLower(TrimDots(q.name)), i)
    ensures var r, end, a := AnswerQuery(packet, net), Parse(packet).value.questionEnd, net.services[i].addr;
            && r.Some? && |r.value| == end + 16 && r.value[2..4] == [0x81, 0x80] && r.value[6..8] == [0, 1]
            && r.value[end..] == [0xc0, 12, 0, 1, 0, 1, 0, 0, 0, 30, 0, 4, a.a, a.b, a.c, a.d]
  {
    var q := Parse(packet).value;
    ResolvesTo(net, q.name);
    PositiveResponse(packet, q.questionEnd, net.services[i].addr);
  }

  // --------------------------------------------------------------- end to end

  /** The wire form of an ASCII string. */
  function Ascii(s: string): (b: Bytes)
    requires forall i :: 0 <= i < |s| ==> s[i] as int < 0x80
    ensures |b| == |s|
    ensures forall i :: 0 <= i < |b| ==> b[i] == s[i] as int
  {
    seq(|s|, i requires 0 <= i < |s| => s[i] as int)
  }

  const MEDIUM := "medium"

  lemma NoTrailingDot(s: string)
    requires s != "" && s[|s| - 1] != '.'
    ensures TrimDots(s) == s
  {
  }

  /** Asking for a published service by its own hostname, in any case of letters, yields the
      address of the last service published under that name, and that address leads back to
      that service. */
  lemma QueryReachesService(name: Naming, published: seq<PublishedService>, net: Network, header: Bytes,
                            asked: string, i: nat)
    requires Allocated(name, published, net.services) && Indexed(net)
    requires |header| == HEADER && header[4..6] == [0, 1]
    requires i < |net.services| && 1 <= |asked| <= 63
    requires forall k :: 0 <= k < |asked| ==> asked[k] as int < 0x80
    requires AsciiLower(asked) + "." + MEDIUM == net.services[i].hostname
    ensures ValidLabels([Ascii(asked), Ascii(MEDIUM)])
    ensures var packet := Question(header, [Ascii(asked), Ascii(MEDIUM)], [0, TYPE_A], [0, CLASS_IN]);
            var last := LastWithHostname(net.services, net.services[i].hostname);
            && last.Some? && i <= last.value < |net.services|
            && AnswerQuery(packet, net).Some?
            && ReadAnswer(AnswerQuery(packet, net).value, |packet|) == Some(net.services[last.value].addr)
            && ServiceForAddr(net, net.services[last.value].addr) == Some(net.services[last.value])
  {
    var h := net.services[i].hostname;
    AskedParses(header, asked, h);
    ResolvesOwnName(name, published, net, h, i);
    var last := LastWithHostname(net.services, h).value;
    var packet := Question(header, [Ascii(asked), Ascii(MEDIUM)], [0, TYPE_A], [0, CLASS_IN]);
    AnswersAddress(packet, net, h, net.services[last]);
  }

  lemma {:induction false} AnswersAddress(packet: Bytes, net: Network, h: string, v: VirtualService)
    requires Parse(packet) == Some(DnsQuery(h, TYPE_A, CLASS_IN, |packet|)) && ResolveHostname(net, h) == Some(v)
    ensures AnswerQuery(packet, net).Some?
    ensures ReadAnswer(AnswerQuery(packet, net).value, |packet|) == Some(v.addr)
  {
    ResponseIsFaithful(packet, net);
  }

  /** The question for a hostname, as it is written and as it is read. */
  lemma {:induction false} AskedParses(header: Bytes, asked: string, h: string)
    requires |header| == HEADER && header[4..6] == [0, 1] && 1 <= |asked| <= 63
    requires forall k :: 0 <= k < |asked| ==> asked[k] as int < 0x80
    requires AsciiLower(asked) + "." + MEDIUM == h
    ensures ValidLabels([Ascii(asked), Ascii(MEDIUM)]) && AsciiLower(TrimDots(h)) == h
    ensures var packet := Question(header, [Ascii(asked), Ascii(MEDIUM)], [0, TYPE_A], [0, CLASS_IN]);
            Parse(packet) == Some(DnsQuery(h, TYPE_A, CLASS_IN, |packet|))
  {
    var labels := [Ascii(asked), Ascii(MEDIUM)];
    AsciiIsUtf8(Ascii(asked));
    AsciiIsUtf8(Ascii(MEDIUM));
    var packet := Question(header, labels, [0, TYPE_A], [0, CLASS_IN]);
    ParseQuestion(header, labels, [0, TYPE_A], [0, CLASS_IN], []);
    assert packet + [] == packet;
    AskedName(asked, h);
  }

  lemma {:induction false} ResolvesOwnName(name: Naming, published: seq<PublishedService>, net: Network,
                                           h: string, i: nat)
    requires Allocated(name, published, net.services) && Indexed(net)
    requires i < |net.services| && net.services[i].hostname == h && AsciiLower(TrimDots(h)) == h
    ensures var last := LastWithHostname(net.services, h);
            && last.Some? && i <= last.value < |net.services|
            && ResolveHostname(net, h) == Some(net.services[last.value])
            && ServiceForAddr(net, net.services[last.value].addr) == Some(net.services[last.value])
  {
    LastFinds(net.services, h);
    ResolvedRoutesBack(name, published, net, h);
  }

  lemma AskedName(asked: string, h: string)
    requires asked != "" && forall k :: 0 <= k < |asked| ==> asked[k] as int < 0x80
    requires AsciiLower(asked) + "." + MEDIUM == h
    ensures AsciiLower(Dotted([Ascii(asked), Ascii(MEDIUM)])) == h
    ensures AsciiLower(TrimDots(h)) == h
  {
    var labels := [Ascii(asked), Ascii(MEDIUM)];
    assert labels[1..] == [Ascii(MEDIUM)];
    assert Chars(Ascii(asked)) == asked && Chars(Ascii(MEDIUM)) == MEDIUM;
    assert Dotted(labels) == asked + "." + MEDIUM;
    NoTrailingDot(h);
  }

  // -------------------------------------------------------- names that can be asked for

  /** Some packet is read as a question for this name. */
  ghost predicate Askable(name: string) {
    exists packet :: Parse(packet).Some? && Parse(packet).value.name == name
  }

  /** The first label of a name is followed by a dot or by nothing. */
  lemma AfterFirstLabel(labels: seq<Bytes>)
    requires labels != []
    ensures var d, n := AsciiLower(Dotted(labels)), |labels[0]|;
            if |labels| == 1 then |d| == n else |d| > n && d[n] == '.'
  {
    assert |labels| > 1 ==> Dotted(labels)[|labels[0]|] == '.';
  }

  lemma FirstLabelShort(labels: seq<Bytes>, l: string)
    requires ValidLabels(labels) && l != "" && '.' !in l
    requires AsciiLower(Dotted(labels)) == l + "." + MEDIUM
    ensures |l| <= 63
  {
    assert labels != [] && ValidLabel(labels[0]);
    AfterFirstLabel(labels);
    assert forall i :: 0 <= i < |l| ==> (l + "." + MEDIUM)[i] == l[i];
  }

  lemma LabelHasNoDot(l: string)
    requires forall i :: 0 <= i < |l| ==> Hostname.LabelChar(l[i])
    ensures '.' !in l && AsciiLower(l) == l && forall i :: 0 <= i < |l| ==> l[i] as int < 0x80
  {
  }

  /** A hostname can be asked for if and only if its label has at most 63 characters. */
  lemma AskableIff(l: string)
    requires l != "" && forall i :: 0 <= i < |l| ==> Hostname.LabelChar(l[i])
    ensures Askable(l + "." + MEDIUM) <==> |l| <= 63
  {
    LabelHasNoDot(l);
    var h := l + "." + MEDIUM;
    if |l| <= 63 {
      var header: Bytes := [0, 0, 1, 0, 0, 1, 0, 0, 0, 0, 0, 0];
      assert header[4..6] == [0, 1];
      AskedParses(header, l, h);
    }
    if Askable(h) {
      var packet :| Parse(packet).Some? && Parse(packet).value.name == h;
      ParsedIsEncoding(packet, HEADER);
      FirstLabelShort(ParseLabels(packet, HEADER).value.labels, l);
    }
  }

  lemma {:induction false} LoweredIsLowercase(lower: Lowering, s: string)
    requires forall c :: Hostname.Lowercase(lower(c))
    ensures Hostname.Lowercase(LowerAll(lower, s))
  {
    if s != "" {
      LoweredIsLowercase(lower, s[1..]);
      assert Hostname.Lowercase(lower(s[0]));
    }
  }

  /** So a published service can be asked for by name exactly if its label is not too long,
      although services with any label are accepted. */
  lemma PublishedAskableIff(lower: Lowering, s: PublishedService)
    requires forall c :: Hostname.Lowercase(lower(c))
    ensures Askable(HostnameOf(lower, s)) <==>
            |Hostname.Label(LowerAll(lower, if s.lab.Some? then s.lab.value else s.id))| <= 63
  {
    var text := LowerAll(lower, if s.lab.Some? then s.lab.value else s.id);
    LoweredIsLowercase(lower, if s.lab.Some? then s.lab.value else s.id);
    Hostname.LabelChars(text);
    var l := Hostname.Label(text);
    assert l + ".medium" == l + "." + MEDIUM;
    AskableIff(l);
  }
}
