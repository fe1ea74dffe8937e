/** The reassembly of a client's requests in afpsld, a piece at a time as its socket becomes readable
    (process_command of daemon/commands.c, reset_client_request of daemon/daemon_client.c). */
module Requests {
  import opened Bytes
  import opened Framing

  /** struct afpsl_ipc_request_header: a command, padding, the length of the whole request, and a flag. */
  const REQUEST_HEADER := 12
  const MAX_REQUEST := 2 * 65536 + 4096

  function RequestLength(b: seq<byte>): nat
    requires |b| >= REQUEST_HEADER
  {
    Get32(b, 4)
  }

  /** A request as long as its header says, within the admission limit. */
  predicate ValidRequest(b: seq<byte>) {
    REQUEST_HEADER <= |b| <= MAX_REQUEST && RequestLength(b) == |b|
  }

  predicate AllValid(requests: seq<seq<byte>>) {
    forall i :: 0 <= i < |requests| ==> ValidRequest(requests[i])
  }

  function Concat(requests: seq<seq<byte>>): seq<byte> {
    if requests == [] then [] else requests[0] + Concat(requests[1..])
  }

  /** A header whose length is out of bounds. */
  predicate Refused(b: seq<byte>) {
    |b| >= REQUEST_HEADER && !(REQUEST_HEADER <= RequestLength(b) <= MAX_REQUEST)
  }

  predicate Unfinished(b: seq<byte>) {
    |b| < REQUEST_HEADER || |b| < RequestLength(b)
  }

  /** What a call came to: a complete request, more to come, or a connection to close. */
  datatype Progress = Complete | More | Close

  /** The request fields of struct daemon_client. The packet, once there is one, has the room its header asks. */
  class Client {
    var incomingHeader: seq<byte>
    var packet: Option<seq<byte>>

    /** The bytes of the request read so far. */
    function Received(): seq<byte>
      reads this
    {
      match packet
      case Some(p) => p
      case None => incomingHeader
    }

    ghost predicate Valid()
      reads this
    {
      && |incomingHeader| <= REQUEST_HEADER
      && (packet.None? ==> |incomingHeader| < REQUEST_HEADER)
      && (packet.Some? ==>
            |packet.value| >= REQUEST_HEADER && |packet.value| <= RequestLength(packet.value) <= MAX_REQUEST)
    }

    constructor ()
      ensures Valid() && Received() == []
    {
      incomingHeader, packet := [], None;
    }

    /** reset_client_request. */
    method Reset()
      modifies this
      ensures Valid() && Received() == []
    {
      incomingHeader, packet := [], None;
    }

    /** process_command: what arrives joins what was received, and never a byte past the request's end. */
    method ProcessCommand(s: Socket) returns (r: Progress)
      requires Valid()
      requires packet.Some? ==> |packet.value| < RequestLength(packet.value)
      modifies this, s
      ensures Received() + s.pending == old(Received()) + old(s.pending)
      ensures r.Complete? ==> packet.Some? && ValidRequest(packet.value)
      ensures r.More? ==> Valid() && (packet.Some? ==> |packet.value| < RequestLength(packet.value))
      ensures r.More? ==> |s.turns| < |old(s.turns)|
      ensures r.Complete? ==> |s.turns| < |old(s.turns)|
      ensures r.Close? ==> Refused(Received()) || (Unfinished(Received()) && (s.turns == [] || s.pending == []))
    {
      if packet.None? {
        var got := s.Read(REQUEST_HEADER - |incomingHeader|);
        if got.Stopped? {
          return Close;
        }
        if got.Interrupted? {
          return More;
        }
        incomingHeader := incomingHeader + got.data;
        if |incomingHeader| < REQUEST_HEADER {
          return More;
        }
        if RequestLength(incomingHeader) < REQUEST_HEADER || RequestLength(incomingHeader) > MAX_REQUEST {
          return Close;
        }
        packet := Some(incomingHeader);
      }
      if |packet.value| < RequestLength(packet.value) {
        r := ReadBody(s);
        return;
      }
      return Complete;
    }

    /** The body's read; RequestLength looks at the header, which it leaves alone. */
    method ReadBody(s: Socket) returns (r: Progress)
      requires Valid() && packet.Some? && |packet.value| < RequestLength(packet.value)
      modifies this`packet, s
      ensures Valid() && packet.Some? && packet.value + s.pending == old(packet.value + s.pending)
      ensures r.Complete? ==> ValidRequest(packet.value)
      ensures r.More? ==> |packet.value| < RequestLength(packet.value)
      ensures !r.Close? ==> |s.turns| < |old(s.turns)|
      ensures |s.turns| <= |old(s.turns)|
      ensures r.Close? ==> Unfinished(packet.value) && (s.turns == [] || s.pending == [])
    {
      var p := packet.value;
      var got := s.Read(RequestLength(p) - |p|);
      if got.Stopped? {
        return Close;
      }
      if got.Interrupted? {
        return More;
      }
      Get32Same(p + got.data, 4, p, 4);
      packet := Some(p + got.data);
      if |p + got.data| < RequestLength(p) {
        return More;
      }
      return Complete;
    }
  }

  /** Bytes that begin like a request have its length. */
  lemma SameLength(a: seq<byte>, x: seq<byte>, b: seq<byte>, y: seq<byte>)
    requires a + x == b + y && |a| >= REQUEST_HEADER && |b| >= REQUEST_HEADER
    ensures RequestLength(a) == RequestLength(b)
  {
    Get32Same(a + x, 4, a, 4);
    Get32Same(b + y, 4, b, 4);
  }

  /** Two requests that begin the same bytes are one. */
  lemma SameRequest(a: seq<byte>, x: seq<byte>, b: seq<byte>, y: seq<byte>)
    requires ValidRequest(a) && ValidRequest(b) && a + x == b + y
    ensures a == b && x == y
  {
    SameLength(a, x, b, y);
    assert a == (a + x)[..|a|] && b == (b + y)[..|b|];
    assert x == (a + x)[|a|..] && y == (b + y)[|b|..];
  }

  /** What is left of a stream of requests is not the start of a longer request or of a refused one. */
  lemma NotStuck(received: seq<byte>, pending: seq<byte>, requests: seq<seq<byte>>)
    requires AllValid(requests) && received + pending == Concat(requests)
    ensures !Refused(received)
    ensures pending == [] && Unfinished(received) ==> requests == []
  {
    if requests != [] {
      if |received| >= REQUEST_HEADER {
        SameLength(received, pending, requests[0], Concat(requests[1..]));
      }
      assert pending == [] ==> |received| == |requests[0]| + |Concat(requests[1..])|;
    }
  }

  /** For any stream of valid requests, cut and interrupted anywhere, the daemon gets exactly the requests, in
      order: some of them while the stream goes on, and all of them unless it stopped short. */
  method Serve(s: Socket, ghost requests: seq<seq<byte>>) returns (packets: seq<seq<byte>>)
    requires AllValid(requests) && s.pending == Concat(requests)
    modifies s
    ensures |packets| <= |requests| && packets == requests[..|packets|]
    ensures s.turns != [] ==> packets == requests && s.pending == []
  {
    hide AllValid, Concat, ValidRequest, Refused, Unfinished, RequestLength;
    var c := new Client();
    packets := [];
    while true
      invariant c.Valid() && (c.packet.Some? ==> |c.packet.value| < RequestLength(c.packet.value)) && fresh(c)
      invariant |packets| <= |requests| && packets == requests[..|packets|]
      invariant c.Received() + s.pending == Concat(requests[|packets|..])
      decreases |s.turns|
    {
      ghost var left := requests[|packets|..];
      RestValid(requests, |packets|);
      var r := c.ProcessCommand(s);
      match r {
        case More =>
        case Close =>
          NotStuck(c.Received(), s.pending, left);
          return;
        case Complete =>
          var p := c.packet.value;
          NextRequest(p, s.pending, left);
          assert left[1..] == requests[|packets| + 1..];
          packets := packets + [p];
          c.Reset();
      }
    }
  }

  lemma RestValid(requests: seq<seq<byte>>, n: nat)
    requires AllValid(requests) && n <= |requests|
    ensures AllValid(requests[n..])
  {
  }

  lemma NextRequest(p: seq<byte>, pending: seq<byte>, requests: seq<seq<byte>>)
    requires AllValid(requests) && ValidRequest(p) && p + pending == Concat(requests)
    ensures requests != [] && p == requests[0] && pending == Concat(requests[1..])
  {
    SameRequest(p, pending, requests[0], Concat(requests[1..]));
  }
}
