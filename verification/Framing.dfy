/** The hello line and the bytes behind it: a byte-at-a-time reader and a reader over
    WebSocket frames, and exactly when they agree. */
module Framing {
  import opened Base

  const NEWLINE: byte := 10
  const MAX_LINE := 16384

  type Bytes = seq<byte>

  /** Position of the first newline, or the length. */
  function NewlineAt(s: Bytes): (n: nat)
    ensures n <= |s|
    ensures forall i :: 0 <= i < n ==> s[i] != NEWLINE
    ensures n < |s| ==> s[n] == NEWLINE
  {
    if s == [] || s[0] == NEWLINE then 0 else 1 + NewlineAt(s[1..])
  }

  /** Only one number has the properties of `NewlineAt`. */
  lemma NewlineUnique(s: Bytes, n: nat)
    requires n <= |s| && (forall i :: 0 <= i < n ==> s[i] != NEWLINE) && (n < |s| ==> s[n] == NEWLINE)
    ensures NewlineAt(s) == n
  {
  }

  /** A newline already present stays the first. */
  lemma NewlineExtended(p: Bytes, tail: Bytes)
    requires NewlineAt(p) < |p|
    ensures var n := NewlineAt(p);
            NewlineAt(p + tail) == n && (p + tail)[..n] == p[..n] && (p + tail)[n + 1..] == p[n + 1..] + tail
  {
    NewlineUnique(p + tail, NewlineAt(p));
  }

  // ------------------------------------------------------ byte-at-a-time reader

  datatype LineResult = Line(line: Bytes, rest: Bytes) | LineTooLarge | LineMissing | LineEof

  /** The outcome in terms of the position of the newline. */
  function LineOf(stream: Bytes): LineResult {
    var n := NewlineAt(stream);
    if n > MAX_LINE then LineTooLarge
    else if n == |stream| then LineEof
    else if n == 0 then LineMissing
    else Line(stream[..n], stream[n + 1..])
  }

  /** `read_json_line` up to the JSON decoding. */
  method ReadLine(stream: Bytes) returns (r: LineResult)
    ensures r == LineOf(stream)
  {
    var line: Bytes := [];
    var i := 0;
    while true
      invariant i <= |stream| && i <= NewlineAt(stream)
      invariant line == stream[..i] && i <= MAX_LINE
      decreases |stream| - i
    {
      if i == |stream| {
        return LineEof;
      }
      var b := stream[i];
      i := i + 1;
      if b == NEWLINE {
        break;
      }
      line := line + [b];
      if |line| > MAX_LINE {
        return LineTooLarge;
      }
    }
    if line == [] {
      return LineMissing;
    }
    r := Line(line, stream[i..]);
  }

  // ------------------------------------------------------------- WebSocket reader

  datatype Message = Binary(frame: Bytes) | CloseFrame | Other

  /** The byte stream the binary frames carry, up to a close frame. */
  function Carried(ms: seq<Message>): Bytes {
    if ms == [] || ms[0].CloseFrame? then []
    else (if ms[0].Binary? then ms[0].frame else []) + Carried(ms[1..])
  }

  datatype WsResult =
    | Hello(line: Bytes, initial: Bytes, rest: seq<Message>)
    | WsTooLarge
    | WsMissing
    | WsClosed
    | WsEnded

  function WsRead(ms: seq<Message>, payload: Bytes): WsResult {
    if ms == [] then WsEnded
    else
      match ms[0]
      case CloseFrame => WsClosed
      case Other => WsRead(ms[1..], payload)
      case Binary(f) =>
        var p := payload + f;
        var n := NewlineAt(p);
        if n < |p| then
          if n == 0 then WsMissing else Hello(p[..n], p[n + 1..], ms[1..])
        else if |p| > MAX_LINE then WsTooLarge
        else WsRead(ms[1..], p)
  }

  /** `read_wss_session_hello` up to the JSON decoding. */
  method ReadWssHello(ms: seq<Message>) returns (r: WsResult)
    ensures r == WsRead(ms, [])
  {
    var payload: Bytes := [];
    var i := 0;
    while i < |ms|
      invariant i <= |ms|
      invariant WsRead(ms, []) == WsRead(ms[i..], payload)
    {
      assert ms[i..][0] == ms[i] && ms[i..][1..] == ms[i + 1..];
      match ms[i] {
        case Binary(f) =>
          payload := payload + f;
          var n := NewlineAt(payload);
          if n < |payload| {
            var remaining := payload[n + 1..];
            payload := payload[..n];
            if payload == [] {
              return WsMissing;
            }
            return Hello(payload, remaining, ms[i + 1..]);
          }
          if |payload| > MAX_LINE {
            return WsTooLarge;
          }
        case CloseFrame => return WsClosed;
        case Other =>
      }
      i := i + 1;
    }
    r := WsEnded;
  }

  // ---------------------------------------------------------------- when they agree

  /** Counting from `size`, some frame ends past the limit and not past position `n`. */
  predicate Overrun(ms: seq<Message>, size: nat, n: nat) {
    if ms == [] || ms[0].CloseFrame? then false
    else if ms[0].Other? then Overrun(ms[1..], size, n)
    else
      var c := size + |ms[0].frame|;
      (MAX_LINE < c <= n) || Overrun(ms[1..], c, n)
  }

  predicate HasClose(ms: seq<Message>) {
    exists i :: 0 <= i < |ms| && ms[i].CloseFrame?
  }

  /** The line and its position in terms of the stream alone. */
  ghost predicate Splits(s: Bytes, r: WsResult) {
    var n := NewlineAt(s);
    n < |s| && r.Hello? && r.line == s[..n] && r.initial + Carried(r.rest) == s[n + 1..]
  }

  lemma {:induction false} NoOverrunPast(ms: seq<Message>, size: nat, n: nat)
    requires n < size
    ensures !Overrun(ms, size, n)
  {
    if ms != [] && !ms[0].CloseFrame? {
      NoOverrunPast(ms[1..], if ms[0].Other? then size else size + |ms[0].frame|, n);
    }
  }

  /** The outcome `r` of reading `ms` after `payload`, in terms of the whole stream. */
  ghost predicate Exact(ms: seq<Message>, payload: Bytes, r: WsResult) {
    var s := payload + Carried(ms);
    var n := NewlineAt(s);
    && (r.Hello? <==> 1 <= n < |s| && !Overrun(ms, |payload|, n))
    && (r.Hello? ==> Splits(s, r))
    && (r.WsTooLarge? <==> Overrun(ms, |payload|, n))
  }

  /** The newline is in the frame at hand. */
  lemma NewlineInFrame(ms: seq<Message>, payload: Bytes)
    requires ms != [] && ms[0].Binary? && NewlineAt(payload + ms[0].frame) < |payload + ms[0].frame|
    requires NewlineAt(payload) == |payload|
    ensures Exact(ms, payload, WsRead(ms, payload))
  {
    var p, tail := payload + ms[0].frame, Carried(ms[1..]);
    assert payload + Carried(ms) == p + tail;
    NewlineExtended(p, tail);
    NoOverrunPast(ms[1..], |p|, NewlineAt(p));
  }

  /** The newline is still to come, if there is one. */
  lemma NewlineLater(ms: seq<Message>, payload: Bytes)
    requires ms != [] && ms[0].Binary? && NewlineAt(payload + ms[0].frame) == |payload + ms[0].frame|
    requires |payload + ms[0].frame| <= MAX_LINE ==>
               Exact(ms[1..], payload + ms[0].frame, WsRead(ms[1..], payload + ms[0].frame))
    ensures Exact(ms, payload, WsRead(ms, payload))
  {
    var p, tail := payload + ms[0].frame, Carried(ms[1..]);
    assert payload + Carried(ms) == p + tail;
    LaterNewline(p, tail);
  }

  lemma {:induction false} WsReadGeneral(ms: seq<Message>, payload: Bytes)
    requires NewlineAt(payload) == |payload| <= MAX_LINE
    ensures Exact(ms, payload, WsRead(ms, payload))
    decreases |ms|
  {
    if ms == [] || ms[0].CloseFrame? {
      assert payload + Carried(ms) == payload;
    } else if ms[0].Other? {
      assert Carried(ms) == Carried(ms[1..]);
      WsReadGeneral(ms[1..], payload);
    } else {
      var p := payload + ms[0].frame;
      if NewlineAt(p) < |p| {
        NewlineInFrame(ms, payload);
      } else {
        if |p| <= MAX_LINE {
          WsReadGeneral(ms[1..], p);
        }
        NewlineLater(ms, payload);
      }
    }
  }

  lemma LaterNewline(p: Bytes, tail: Bytes)
    requires NewlineAt(p) == |p|
    ensures NewlineAt(p + tail) >= |p|
  {
  }

  /** The frame reader gets the first line of the carried stream exactly when that line is
      not empty and no frame ends between the limit and the newline; what it leaves is the
      stream after the newline.  It reports "too large" exactly on such a frame end. */
  lemma WsReaderExact(ms: seq<Message>)
    ensures var s := Carried(ms);
            var n := NewlineAt(s);
            var r := WsRead(ms, []);
            && (r.Hello? <==> 1 <= n < |s| && !Overrun(ms, 0, n))
            && (r.Hello? ==> Splits(s, r))
            && (r.WsTooLarge? <==> Overrun(ms, 0, n))
  {
    WsReadGeneral(ms, []);
    assert [] + Carried(ms) == Carried(ms);
  }

  lemma CloseAfter(ms: seq<Message>)
    requires ms != [] && !ms[0].CloseFrame?
    ensures HasClose(ms) <==> HasClose(ms[1..])
  {
    if i :| 0 <= i < |ms| && ms[i].CloseFrame? {
      assert ms[1..][i - 1].CloseFrame?;
    }
    if i :| 0 <= i < |ms[1..]| && ms[1..][i].CloseFrame? {
      assert ms[i + 1].CloseFrame?;
    }
  }

  lemma {:induction false} FailuresGeneral(ms: seq<Message>, payload: Bytes)
    requires NewlineAt(payload) == |payload| <= MAX_LINE
    ensures var r, s := WsRead(ms, payload), payload + Carried(ms);
            && (r.WsMissing? <==> NewlineAt(s) == 0 < |s|)
            && (r.WsClosed? || r.WsEnded? ==> NewlineAt(s) == |s|)
            && (r.WsClosed? ==> HasClose(ms)) && (r.WsEnded? ==> !HasClose(ms))
    decreases |ms|
  {
    if ms == [] || ms[0].CloseFrame? {
      assert payload + Carried(ms) == payload;
    } else if ms[0].Other? {
      CloseAfter(ms);
      assert Carried(ms) == Carried(ms[1..]);
      FailuresGeneral(ms[1..], payload);
    } else {
      CloseAfter(ms);
      var p, tail := payload + ms[0].frame, Carried(ms[1..]);
      assert payload + Carried(ms) == p + tail;
      if NewlineAt(p) < |p| {
        NewlineExtended(p, tail);
      } else {
        LaterNewline(p, tail);
        if |p| <= MAX_LINE {
          FailuresGeneral(ms[1..], p);
        }
      }
    }
  }

  /** Why there is no hello: the stream starts with a newline; or it has none and a close frame
      ends it, or nothing ends it.  Together with the outcomes above every case is told apart. */
  lemma WsFailuresExact(ms: seq<Message>)
    ensures var s := Carried(ms);
            var r, n := WsRead(ms, []), NewlineAt(s);
            && (r.WsMissing? <==> n == 0 < |s|)
            && (r.WsClosed? <==> n == |s| && !Overrun(ms, 0, n) && HasClose(ms))
            && (r.WsEnded? <==> n == |s| && !Overrun(ms, 0, n) && !HasClose(ms))
  {
    FailuresGeneral(ms, []);
    WsReaderExact(ms);
    assert [] + Carried(ms) == Carried(ms);
  }

  lemma {:induction false} ShortLinesNeverOverrun(ms: seq<Message>, size: nat, n: nat)
    requires n <= MAX_LINE
    ensures !Overrun(ms, size, n)
  {
    if ms != [] && !ms[0].CloseFrame? {
      ShortLinesNeverOverrun(ms[1..], if ms[0].Other? then size else size + |ms[0].frame|, n);
    }
  }

  /** Framing independence: for a line within the limit every split into frames gives the
      line and the remainder that reading byte by byte gives. */
  lemma FramingIndependence(ms: seq<Message>, line: Bytes, tail: Bytes)
    requires Carried(ms) == line + [NEWLINE] + tail
    requires 1 <= |line| <= 16384 && forall i :: 0 <= i < |line| ==> line[i] != NEWLINE
    ensures var r := WsRead(ms, []);
            && r.Hello? && r.line == line && r.initial + Carried(r.rest) == tail
            && LineOf(Carried(ms)) == Line(line, tail)
  {
    var s := Carried(ms);
    assert s[|line|] == NEWLINE;
    assert forall i :: 0 <= i < |line| ==> s[i] == line[i];
    NewlineUnique(s, |line|);
    ShortLinesNeverOverrun(ms, 0, |line|);
    WsReaderExact(ms);
    assert s[..|line|] == line && s[|line| + 1..] == tail;
  }

  /** The byte reader's outcome, case by case. */
  lemma LineOutcome(s: Bytes, n: nat)
    requires n <= |s| && (forall i :: 0 <= i < n ==> s[i] != 10) && (n < |s| ==> s[n] == 10)
    ensures LineOf(s) == (if n > 16384 then LineTooLarge
                          else if n == |s| then LineEof
                          else if n == 0 then LineMissing
                          else Line(s[..n], s[n + 1..]))
  {
    NewlineUnique(s, n);
  }

  /** The frame reader takes a line if and only if the byte reader does, with the same line
      and remainder, exactly when every line beyond the limit has a frame end between the
      limit and its newline. */
  lemma ReadersAgreeIff(ms: seq<Message>)
    ensures var s := Carried(ms);
            var r := WsRead(ms, []);
            (match LineOf(s)
             case Line(line, rest) => r.Hello? && r.line == line && r.initial + Carried(r.rest) == rest
             case _ => !r.Hello?)
            <==> (MAX_LINE < NewlineAt(s) < |s| ==> Overrun(ms, 0, NewlineAt(s)))
  {
    WsReaderExact(ms);
    if NewlineAt(Carried(ms)) <= MAX_LINE {
      ShortLinesNeverOverrun(ms, 0, NewlineAt(Carried(ms)));
    }
  }

  /** Beyond the limit the readers differ: a longer line in a single frame is accepted here
      and refused by the byte reader. */
  lemma LongLineInOneFrame(line: Bytes, tail: Bytes)
    requires |line| > MAX_LINE && forall i :: 0 <= i < |line| ==> line[i] != NEWLINE
    ensures var f := line + [NEWLINE] + tail;
            var r := WsRead([Binary(f)], []);
            r.Hello? && r.line == line && r.initial + Carried(r.rest) == tail && NewlineAt(f) > MAX_LINE
  {
    var f := line + [NEWLINE] + tail;
    assert f[|line|] == NEWLINE;
    assert forall i :: 0 <= i < |line| ==> f[i] == line[i];
    NewlineUnique(f, |line|);
    var ms := [Binary(f)];
    assert ms[1..] == [] && Carried(ms) == f;
    WsReaderExact(ms);
    assert f[..|line|] == line && f[|line| + 1..] == tail;
  }

  /** The forwarding loop after the hello: initial bytes, then frame after frame. */
  method Forward(initial: Bytes, rest: seq<Message>) returns (written: Bytes)
    ensures written == initial + Carried(rest)
  {
    written := [];
    if initial != [] {
      written := initial;
    }
    var i := 0;
    while i < |rest|
      invariant i <= |rest|
      invariant written + Carried(rest[i..]) == initial + Carried(rest)
    {
      assert rest[i..][0] == rest[i] && rest[i..][1..] == rest[i + 1..];
      match rest[i] {
        case Binary(f) =>
          assert written + (f + Carried(rest[i + 1..])) == written + f + Carried(rest[i + 1..]);
          written := written + f;
        case CloseFrame => break;
        case Other =>
      }
      i := i + 1;
    }
  }

  // ------------------------------------------------------- WssByteStream::read

  datatype Frame = Payload(bytes: Bytes) | Shut | Control

  /** Everything the socket will still deliver before it is shut. */
  function Incoming(fs: seq<Frame>): Bytes {
    if fs == [] || fs[0].Shut? then []
    else (if fs[0].Payload? then fs[0].bytes else []) + Incoming(fs[1..])
  }

  /** The first payload to come, if any. */
  function NextPayload(fs: seq<Frame>): Option<Bytes> {
    if fs == [] || fs[0].Shut? then None
    else if fs[0].Payload? then Some(fs[0].bytes)
    else NextPayload(fs[1..])
  }

  /** With nothing left over, a read into a non-empty buffer returns 0. */
  predicate ReadsZero(fs: seq<Frame>) {
    NextPayload(fs) == None || NextPayload(fs) == Some([])
  }

  lemma SplitKeeps(b: Bytes, n: nat, rest: Bytes)
    requires n <= |b|
    ensures b[..n] + (b[n..] + rest) == b + rest
  {
  }

  class WssByteStream {
    var socket: seq<Frame> // what `socket.read` will return, in order
    var pendingRead: Bytes

    ghost function Remaining(): Bytes
      reads this
    {
      pendingRead + Incoming(socket)
    }

    /** `read` into a buffer of `want` bytes: hands out the front of what remains and keeps
        everything it does not hand out. */
    method Read(want: nat) returns (got: Bytes)
      modifies this
      ensures |got| <= want
      ensures got + Remaining() == old(Remaining())
      ensures got == [] <==> want == 0 || (old(pendingRead) == [] && ReadsZero(old(socket)))
    {
      if pendingRead != [] {
        var n := Min(want, |pendingRead|);
        got := pendingRead[..n];
        assert pendingRead == got + pendingRead[n..];
        pendingRead := pendingRead[n..];
        return;
      }
      while socket != []
        invariant pendingRead == [] && Incoming(socket) == old(Remaining())
        invariant NextPayload(socket) == NextPayload(old(socket))
        decreases |socket|
      {
        var f := socket[0];
        if f.Shut? {
          return [];
        }
        ghost var rest := Incoming(socket[1..]);
        socket := socket[1..];
        if f.Payload? {
          var n := Min(want, |f.bytes|);
          got := f.bytes[..n];
          if n < |f.bytes| {
            pendingRead := f.bytes[n..];
          }
          SplitKeeps(f.bytes, n, rest);
          return;
        }
      }
      got := [];
    }
  }

  // A read of 0 bytes is what callers take for the end of the stream.

  ghost predicate NoShut(fs: seq<Frame>) {
    forall i :: 0 <= i < |fs| ==> !fs[i].Shut?
  }

  /** Wherever reading may have got to, a read of 0 bytes means that no byte is left. */
  ghost predicate ZeroMeansEnd(fs: seq<Frame>) {
    forall k :: 0 <= k <= |fs| && NoShut(fs[..k]) && ReadsZero(fs[k..]) ==> Incoming(fs[k..]) == []
  }

  /** An empty payload at `k` with bytes still to come. */
  ghost predicate EmptyBeforeBytes(fs: seq<Frame>, k: nat) {
    k < |fs| && NoShut(fs[..k]) && fs[k] == Payload([]) && Incoming(fs[k + 1..]) != []
  }

  lemma {:induction false} ZeroReadHere(fs: seq<Frame>, k: nat)
    requires k <= |fs| && NoShut(fs[..k]) && ReadsZero(fs[k..])
    requires forall j: nat :: !EmptyBeforeBytes(fs, j)
    ensures Incoming(fs[k..]) == []
    decreases |fs| - k
  {
    if k < |fs| && !fs[k].Shut? {
      assert fs[k..][0] == fs[k] && fs[k..][1..] == fs[k + 1..];
      if fs[k].Payload? {
        assert !EmptyBeforeBytes(fs, k);
      } else {
        ZeroReadHere(fs, k + 1);
      }
    }
  }

  /** A zero-length read means the end of the stream if and only if no empty payload has bytes
      behind it. */
  lemma ZeroMeansEndIff(fs: seq<Frame>)
    ensures ZeroMeansEnd(fs) <==> forall k: nat :: !EmptyBeforeBytes(fs, k)
  {
    if forall k: nat :: !EmptyBeforeBytes(fs, k) {
      forall k | 0 <= k <= |fs| && NoShut(fs[..k]) && ReadsZero(fs[k..]) ensures Incoming(fs[k..]) == [] {
        ZeroReadHere(fs, k);
      }
    } else {
      var k: nat :| EmptyBeforeBytes(fs, k);
      assert fs[k..][0] == fs[k] && fs[k..][1..] == fs[k + 1..];
      assert ReadsZero(fs[k..]) && Incoming(fs[k..]) != [];
    }
  }
}
