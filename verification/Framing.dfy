/** A response on its way from afpsld to the client library: the content with its length rewritten, the log records
    and a footer that is read from the end (daemon/daemon_client.c, daemon/stateless.c). */
module Framing {
  import opened Bytes
  import opened Logs

  const HEADER_SIZE := 8
  const FOOTER_SIZE := 8
  const LOG_MAGIC := 0x4146_504c

  // ----- the socket

  datatype Arrival = Stopped | Interrupted | Got(data: seq<byte>)

  /** The bytes a peer has sent or will send, and how each coming read goes: a 0 interrupts it, and a positive
      number lets it have up to that many bytes. A read past the last turn times out, and one past the last byte
      finds the connection closed. */
  class Socket {
    var pending: seq<byte>
    var turns: seq<nat>

    constructor (pending: seq<byte>, turns: seq<nat>)
      ensures this.pending == pending && this.turns == turns
    {
      this.pending, this.turns := pending, turns;
    }

    method Read(max: nat) returns (r: Arrival)
      requires max > 0
      modifies this
      ensures r.Got? ==> 0 < |r.data| <= max && old(pending) == r.data + pending
      ensures !r.Got? ==> pending == old(pending)
      ensures r.Stopped? ==> turns == [] || pending == []
      ensures !r.Stopped? ==> |turns| < |old(turns)|
      ensures |turns| <= |old(turns)|
    {
      if turns == [] {
        return Stopped;
      }
      var n := turns[0];
      if n == 0 {
        turns := turns[1..];
        return Interrupted;
      }
      if pending == [] {
        return Stopped;
      }
      turns := turns[1..];
      var k := if n > max then max else n;
      if k > |pending| {
        k := |pending|;
      }
      r := Got(pending[..k]);
      pending := pending[k..];
    }
  }

  datatype Writing = Failed | Retry | Took(n: nat)

  /** The daemon's end: the bytes written so far, and how each coming write goes: a 0 interrupts it, a positive number
      takes up to that many bytes, and one past the last turn fails. */
  class Outlet {
    var sent: seq<byte>
    var turns: seq<nat>

    constructor (turns: seq<nat>)
      ensures sent == [] && this.turns == turns
    {
      sent, this.turns := [], turns;
    }

    method Write(data: seq<byte>) returns (r: Writing)
      requires data != []
      modifies this
      ensures r.Took? ==> 0 < r.n <= |data| && sent == old(sent) + data[..r.n]
      ensures !r.Took? ==> sent == old(sent)
      ensures r.Failed? <==> old(turns) == []
      ensures r.Failed? ==> turns == []
      ensures !r.Failed? ==> |turns| < |old(turns)|
    {
      if turns == [] {
        return Failed;
      }
      var n := turns[0];
      turns := turns[1..];
      if n == 0 {
        return Retry;
      }
      n := if n > |data| then |data| else n;
      sent := sent + data[..n];
      return Took(n);
    }
  }

  // ----- the frame

  /** The content's header with another length: a result byte, padding, and the length. */
  function WithLength(content: seq<byte>, n: nat): (r: seq<byte>)
    requires |content| >= HEADER_SIZE && n <= UINT32_MAX
    ensures |r| == |content|
  {
    content[..4] + U32(n) + content[HEADER_SIZE..]
  }

  predicate Sendable(content: seq<byte>, log: seq<byte>) {
    && |content| >= HEADER_SIZE && |log| <= LOG_BUFFER_SIZE
    && |content| + |log| + FOOTER_SIZE <= UINT32_MAX
  }

  function Footer(log: seq<byte>): (r: seq<byte>)
    requires |log| <= LOG_BUFFER_SIZE
    ensures |r| == FOOTER_SIZE
  {
    U32(LOG_MAGIC) + U32(|log|)
  }

  function Framed(content: seq<byte>, log: seq<byte>): (r: seq<byte>)
    requires Sendable(content, log)
    ensures |r| == |content| + |log| + FOOTER_SIZE
  {
    WithLength(content, |content| + |log| + FOOTER_SIZE) + log + Footer(log)
  }

  /** send_command: the frame goes out whole, however the writes cut it, or in part when one fails. */
  method SendCommand(out: Outlet, content: seq<byte>, log: seq<byte>) returns (ok: bool)
    modifies out
    ensures !Sendable(content, log) ==> !ok && out.sent == old(out.sent)
    ensures Sendable(content, log) && ok ==> out.sent == old(out.sent) + Framed(content, log)
    ensures Sendable(content, log) && !ok ==>
      out.turns == []
      && exists n :: 0 <= n < |Framed(content, log)| && out.sent == old(out.sent) + Framed(content, log)[..n]
  {
    if |content| < HEADER_SIZE || |log| > LOG_BUFFER_SIZE || |content| > UINT32_MAX - |log| - FOOTER_SIZE {
      return false;
    }
    var length := |content| + |log| + FOOTER_SIZE;
    var response := content + log + (U32(LOG_MAGIC) + U32(|log|));
    response := response[..4] + U32(length) + response[HEADER_SIZE..];
    assert response == Framed(content, log);
    ok := WriteAll(out, response);
  }

  /** The loop that writes a response. */
  method WriteAll(out: Outlet, response: seq<byte>) returns (ok: bool)
    modifies out
    ensures ok ==> out.sent == old(out.sent) + response
    ensures !ok ==> exists n :: 0 <= n < |response| && out.sent == old(out.sent) + response[..n]
    ensures !ok ==> out.turns == []
  {
    var total: nat := 0;
    ghost var before := out.sent;
    while total < |response|
      invariant total <= |response| && out.sent == before + response[..total]
      decreases |out.turns|
    {
      var r := out.Write(response[total..]);
      if r.Failed? {
        return false;
      }
      if r.Took? {
        assert response[..total] + response[total..][..r.n] == response[..total + r.n];
        total := total + r.n;
      }
    }
    assert response[..total] == response;
    return true;
  }

  /** afp_sl_response_content_length: how many of the bytes are content, told by the footer at their end. */
  function ContentLength(b: seq<byte>): (n: Option<nat>)
    ensures n.Some? ==> n.value + FOOTER_SIZE <= |b|
  {
    if |b| < FOOTER_SIZE then None
    else
      var logLen := Get32(b, |b| - 4);
      if Get32(b, |b| - FOOTER_SIZE) != LOG_MAGIC || logLen > LOG_BUFFER_SIZE || logLen > |b| - FOOTER_SIZE then None
      else Some(|b| - FOOTER_SIZE - logLen)
  }

  lemma FooterTells(body: seq<byte>, log: seq<byte>)
    requires |log| <= LOG_BUFFER_SIZE
    ensures ContentLength(body + log + Footer(log)) == Some(|body|)
  {
    var b := body + log + Footer(log);
    assert Footer(log)[..4] == U32(LOG_MAGIC) && Footer(log)[4..] == U32(|log|);
    Get32Same(b, |b| - 8, U32(LOG_MAGIC), 0);
    Get32Same(b, |b| - 4, U32(|log|), 0);
  }

  /** Whatever prefix of the content was read first, the rest of the frame tells exactly the rest of the content;
      with no prefix, all of it, only the header's length rewritten. */
  lemma TailTells(content: seq<byte>, log: seq<byte>, prefix: nat)
    requires Sendable(content, log) && prefix <= |content|
    ensures var tail := Framed(content, log)[prefix..];
      && ContentLength(tail) == Some(|content| - prefix)
      && tail[..|content| - prefix] == WithLength(content, |content| + |log| + FOOTER_SIZE)[prefix..]
      && (prefix >= HEADER_SIZE ==> tail[..|content| - prefix] == content[prefix..])
      && tail[|content| - prefix..|tail| - FOOTER_SIZE] == log
  {
    hide U32, Get32;
    var whole := WithLength(content, |content| + |log| + FOOTER_SIZE);
    var body := whole[prefix..];
    assert Framed(content, log)[prefix..] == body + log + Footer(log);
    FooterTells(body, log);
  }

  // ----- reading one response

  function LengthField(b: seq<byte>): nat
    requires |b| >= HEADER_SIZE
  {
    Get32(b, 4)
  }

  /** A frame of the length its own header gives. */
  predicate WellFramed(b: seq<byte>) {
    |b| >= HEADER_SIZE + FOOTER_SIZE && LengthField(b) == |b|
  }

  lemma FramedWell(content: seq<byte>, log: seq<byte>)
    requires Sendable(content, log)
    ensures WellFramed(Framed(content, log))
  {
    var b, n := Framed(content, log), |content| + |log| + FOOTER_SIZE;
    assert b[4] == U32(n)[0] && b[5] == U32(n)[1] && b[6] == U32(n)[2] && b[7] == U32(n)[3];
    Get32Same(b, 4, U32(n), 0);
  }

  /** afp_sl_read_framed_response: what it returns is a frame the peer sent first, and a frame sent alone is
      returned whole unless the socket stops. */
  method ReadFramed(s: Socket, capacity: nat) returns (r: Option<seq<byte>>)
    modifies s
    ensures r.Some? ==> WellFramed(r.value) && |r.value| <= capacity && old(s.pending) == r.value + s.pending
    ensures WellFramed(old(s.pending)) && |old(s.pending)| <= capacity ==>
      (r == Some(old(s.pending)) || (r.None? && s.turns == []))
  {
    if capacity < HEADER_SIZE + FOOTER_SIZE {
      return None;
    }
    var data: seq<byte> := [];
    var expected := 0;
    ghost var sent := s.pending;
    while true
      invariant sent == data + s.pending && |data| <= capacity
      invariant expected == 0 <==> |data| < HEADER_SIZE
      invariant |data| >= HEADER_SIZE ==>
        expected == LengthField(data) && HEADER_SIZE + FOOTER_SIZE <= expected <= capacity && |data| < expected
      decreases |s.turns|
    {
      if |data| >= capacity {
        return None;
      }
      var got := s.Read(capacity - |data|);
      if got.Stopped? {
        return None;
      }
      if got.Interrupted? {
        continue;
      }
      ghost var before := data;
      data := data + got.data;
      assert sent == data + s.pending;
      if |data| >= HEADER_SIZE {
        SameField(data, s.pending);
        if |before| >= HEADER_SIZE {
          SameField(before, got.data);
        }
        if expected == 0 {
          expected := LengthField(data);
          if expected < HEADER_SIZE + FOOTER_SIZE {
            return None;
          }
        }
        if expected > capacity {
          return None;
        }
        if |data| == expected {
          assert WellFramed(sent) ==> s.pending == [] && data + [] == data;
          return Some(data);
        }
        if |data| > expected {
          return None;
        }
      }
    }
  }

  lemma SameField(a: seq<byte>, b: seq<byte>)
    requires |a| >= HEADER_SIZE
    ensures LengthField(a + b) == LengthField(a)
  {
    Get32Same(a + b, 4, a, 4);
  }

  // ----- the log records at the end

  /** afp_sl_dispatch_response_logs: the records delivered, in order, or nothing when one is malformed. */
  method DispatchLogs(b: seq<byte>) returns (r: Option<seq<Record>>)
    ensures r == if ContentLength(b).None? then None
                 else Decode(b[ContentLength(b).value..|b| - FOOTER_SIZE])
  {
    hide Get32, Decode, ContentLength;
    var contentLen := ContentLength(b);
    if contentLen.None? {
      return None;
    }
    var end := |b| - FOOTER_SIZE;
    var pos: nat := contentLen.value;
    var delivered: seq<Record> := [];
    DecodeEnd();
    ThenNothing(Decode(b[pos..end]));
    while pos < end
      invariant contentLen.value <= pos <= end
      invariant Decode(b[contentLen.value..end]) == Then(delivered, Decode(b[pos..end]))
    {
      DecodeAt(b, pos, end);
      if end - pos < RECORD_SIZE {
        return None;
      }
      var level, n := Get32(b, pos), Get32(b, pos + 4);
      if n > LOG_BUFFER_SIZE || n > end - pos - RECORD_SIZE {
        return None;
      }
      var record := Record(level, b[pos + RECORD_SIZE..pos + RECORD_SIZE + n]);
      ThenThen(delivered, record, Decode(b[pos + RECORD_SIZE + n..end]));
      delivered, pos := delivered + [record], pos + RECORD_SIZE + n;
    }
    assert b[pos..end] == [] && delivered + [] == delivered;
    return Some(delivered);
  }

  lemma ThenNothing(rest: Option<seq<Record>>)
    ensures Then([], rest) == rest
  {
    if rest.Some? {
      assert [] + rest.value == rest.value;
    }
  }

  lemma DecodeEnd()
    ensures Decode([]) == Some([])
  {
  }

  /** The record at a position of a buffer, and the rest. */
  lemma DecodeAt(b: seq<byte>, pos: nat, end: nat)
    requires pos < end <= |b|
    ensures Decode(b[pos..end]) ==
      if end - pos < RECORD_SIZE then None
      else
        var n := Get32(b, pos + 4);
        if n > LOG_BUFFER_SIZE || n > end - pos - RECORD_SIZE then None
        else Then([Record(Get32(b, pos), b[pos + RECORD_SIZE..pos + RECORD_SIZE + n])],
                  Decode(b[pos + RECORD_SIZE + n..end]))
  {
    if end - pos >= RECORD_SIZE {
      var rest := b[pos..end];
      Get32Same(b, pos, rest, 0);
      Get32Same(b, pos + 4, rest, 4);
      var n := Get32(b, pos + 4);
      if n <= end - pos - RECORD_SIZE {
        assert rest[RECORD_SIZE..RECORD_SIZE + n] == b[pos + RECORD_SIZE..pos + RECORD_SIZE + n];
        assert rest[RECORD_SIZE + n..] == b[pos + RECORD_SIZE + n..end];
      }
    }
  }

  /** Of a frame that is sent in part, nothing is well framed. */
  lemma WholeFrame(b: seq<byte>, rest: seq<byte>, sent: seq<byte>, frame: seq<byte>)
    requires WellFramed(b) && WellFramed(frame) && sent == b + rest && sent <= frame
    ensures b == sent == frame
  {
    hide Get32;
    var after := rest + frame[|sent|..];
    assert b + after == frame;
    SameField(b, after);
  }

  /** However a response is split on its way, the client gets the content the daemon sent, with only the length
      rewritten, and exactly the records the daemon logged, unless a write fails or the client's turns run out. */
  method Exchange(content: seq<byte>, calls: seq<LogCall>, writes: seq<nat>, capacity: nat, turns: seq<nat>)
    returns (r: Option<(seq<byte>, seq<Record>)>, sent: bool, left: seq<nat>)
    requires HEADER_SIZE <= |content| && |content| + LOG_BUFFER_SIZE + FOOTER_SIZE <= capacity <= UINT32_MAX
    requires forall i :: 0 <= i < |calls| ==> 0 <= calls[i].level <= UINT32_MAX
    ensures r.Some? ==>
      && |r.value.0| == |content|
      && r.value.0[..4] == content[..4] && r.value.0[HEADER_SIZE..] == content[HEADER_SIZE..]
      && r.value.1 == LoggedAll(calls)
    ensures r.Some? ==> sent
    ensures r.None? ==> left == [] || !sent
  {
    hide U32, Get32, Framed, Footer, WellFramed, ContentLength, Decode, LoggedAll;
    var buffer := LogRun(calls);
    var log := buffer.outgoing[..buffer.used];
    var out := new Outlet(writes);
    sent := SendCommand(out, content, log);
    ghost var frame := Framed(content, log);
    assert out.sent <= frame && (sent ==> out.sent == frame);
    var socket := new Socket(out.sent, turns);
    FramedWell(content, log);
    var got := ReadFramed(socket, capacity);
    left := socket.turns;
    if got.None? {
      return None, sent, left;
    }
    WholeFrame(got.value, socket.pending, out.sent, frame);
    TailTells(content, log, 0);
    assert frame[0..] == frame;
    var records := DispatchLogs(got.value);
    var contentLen := ContentLength(got.value).value;
    assert frame[..contentLen] == WithLength(content, |content| + |log| + FOOTER_SIZE)[0..];
    return Some((got.value[..contentLen], records.value)), sent, left;
  }

  // ----- a response read in two parts

  /** How a select before a read ends. */
  datatype Wait = READY | SIGNALLED

  /** read_bytes_with_timeout: exactly as many bytes as asked for, unless the socket stops first or a signal interrupts
      one of the waits before the reads. An interrupted read is made again. */
  method ReadBytes(s: Socket, n: nat, waits: seq<Wait>) returns (r: Option<seq<byte>>)
    modifies s
    ensures r.Some? ==> |r.value| == n && old(s.pending) == r.value + s.pending
    ensures r.None? && n <= |old(s.pending)| ==> s.turns == [] || SIGNALLED in waits
  {
    var i := 0;
    var data: seq<byte> := [];
    ghost var sent := s.pending;
    while |data| < n
      invariant |data| <= n && sent == data + s.pending && i >= 0
      decreases |s.turns|
    {
      if i < |waits| && waits[i] == SIGNALLED {
        return None;
      }
      i := i + 1;
      var got := s.Read(n - |data|);
      match got {
        case Stopped => return None;
        case Interrupted =>
        case Got(more) =>
          data := data + more;
          assert sent == data + s.pending;
      }
    }
    return Some(data);
  }

  /** read_response_tail: the rest of a response of which a prefix was read, and its log records. */
  method ReadResponseTail(s: Socket, total: nat, prefix: nat, waits: seq<Wait>)
    returns (r: Option<(seq<byte>, seq<Record>)>)
    modifies s
    ensures total >= prefix + FOOTER_SIZE && r.Some? ==>
      && total - prefix <= |old(s.pending)|
      && var tail := old(s.pending)[..total - prefix];
         && ContentLength(tail) == Some(|r.value.0|) && r.value.0 == tail[..|r.value.0|]
         && Decode(tail[|r.value.0|..|tail| - FOOTER_SIZE]) == Some(r.value.1)
         && s.pending == old(s.pending)[total - prefix..]
    ensures total < prefix + FOOTER_SIZE ==> r.None?
    ensures total >= prefix + FOOTER_SIZE && total - prefix <= |old(s.pending)| && r.None? ==>
      var tail := old(s.pending)[..total - prefix];
      || s.turns == [] || SIGNALLED in waits || ContentLength(tail).None?
      || Decode(tail[ContentLength(tail).value..|tail| - FOOTER_SIZE]).None?
  {
    hide Decode, ContentLength;
    if total < prefix + FOOTER_SIZE {
      return None;
    }
    var tail := ReadBytes(s, total - prefix, waits);
    if tail.None? {
      return None;
    }
    assert tail.value == old(s.pending)[..total - prefix] && s.pending == old(s.pending)[total - prefix..];
    var contentLen := ContentLength(tail.value);
    if contentLen.None? {
      return None;
    }
    var logs := DispatchLogs(tail.value);
    if logs.None? {
      return None;
    }
    return Some((tail.value[..contentLen.value], logs.value));
  }

  /** A caller that reads any prefix of a response first, its header included, and then its tail gets the content with
      only the length rewritten and exactly the records the daemon logged, and not a byte of the next response. */
  method ExchangeInParts(content: seq<byte>, calls: seq<LogCall>, writes: seq<nat>, prefix: nat, next: seq<byte>,
                         turns: seq<nat>, waits: seq<Wait>, tailWaits: seq<Wait>)
    returns (r: Option<(seq<byte>, seq<byte>, seq<Record>)>, sent: bool, left: seq<nat>, rest: seq<byte>)
    requires HEADER_SIZE <= prefix <= |content| && |content| + LOG_BUFFER_SIZE + FOOTER_SIZE <= UINT32_MAX
    requires forall i :: 0 <= i < |calls| ==> 0 <= calls[i].level <= UINT32_MAX
    ensures r.Some? ==>
      && |r.value.0| == prefix
      && r.value.0[..4] == content[..4] && r.value.0[HEADER_SIZE..] == content[HEADER_SIZE..prefix]
      && r.value.1 == content[prefix..] && r.value.2 == LoggedAll(calls) && rest == next
    ensures r.Some? ==> sent
    ensures r.None? ==> left == [] || !sent || SIGNALLED in waits + tailWaits
  {
    hide U32, Get32, Framed, Footer, ContentLength, Decode, LoggedAll, AllEncodable;
    var buffer := LogRun(calls);
    var log := buffer.outgoing[..buffer.used];
    var out := new Outlet(writes);
    sent := SendCommand(out, content, log);
    ghost var frame := Framed(content, log);
    var follow := if sent then next else [];
    var socket := new Socket(out.sent + follow, turns);
    assert out.sent <= frame && (sent <==> |out.sent| == |frame|);
    TailTells(content, log, prefix);
    FrameParts(content, log, prefix);
    FramedWell(content, log);
    var start := ReadBytes(socket, prefix, waits);
    left, rest := socket.turns, socket.pending;
    if start.None? {
      return None, sent, left, rest;
    }
    StartOf(out.sent, frame, follow, start.value, rest);
    SameField(start.value, frame[prefix..]);
    assert start.value + frame[prefix..] == frame;
    var tail := ReadResponseTail(socket, LengthField(start.value), prefix, tailWaits);
    left, rest := socket.turns, socket.pending;
    if tail.None? {
      return None, sent, left, rest;
    }
    return Some((start.value, tail.value.0, tail.value.1)), sent, left, rest;
  }

  /** What is left of a frame, sent in whole or in part, after a prefix was read. */
  lemma StartOf(sent: seq<byte>, frame: seq<byte>, follow: seq<byte>, start: seq<byte>, rest: seq<byte>)
    requires sent <= frame && sent + follow == start + rest && (sent == frame || follow == []) && |start| <= |frame|
    ensures start == frame[..|start|]
    ensures sent == frame ==>
      rest[..|frame| - |start|] == frame[|start|..] && rest[|frame| - |start|..] == follow
    ensures sent != frame ==> |rest| < |frame| - |start|
  {
    var whole := sent + follow;
    assert start == whole[..|start|] && rest == whole[|start|..];
    assert sent == frame || whole == sent;
    assert whole[..|start|] == frame[..|start|];
  }

  lemma FrameParts(content: seq<byte>, log: seq<byte>, prefix: nat)
    requires Sendable(content, log) && HEADER_SIZE <= prefix <= |content|
    ensures var b := Framed(content, log);
      b[..4] == content[..4] && b[HEADER_SIZE..prefix] == content[HEADER_SIZE..prefix]
      && b[..prefix][..4] == content[..4] && b[..prefix][HEADER_SIZE..] == content[HEADER_SIZE..prefix]
  {
    hide U32;
  }
}
