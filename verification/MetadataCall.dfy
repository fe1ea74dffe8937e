/** A metadata request from the client library to afpsld: metadata_call of daemon/stateless.c builds it, and the
    checks of process_metadata in daemon/commands.c take it apart. */
module MetadataCall {
  import opened Bytes
  import opened EaHeader

  /** offsetof(struct afpsl_ipc_metadata_request, data). */
  const BASE := 48
  const PATH_MAX_BYTES := 65535
  const METADATA_CHUNK := 4096
  const XATTR_LIST_MAX := 224 * 1024
  const INT_MAX := 0x7fff_ffff
  const XATTR_CREATE := 2
  const XATTR_REPLACE := 4

  const GETXATTR := 39
  const SETXATTR := 40
  const LISTXATTR := 41
  const REMOVEXATTR := 42
  const SETFINDERINFO := 44
  const SETRESOURCEFORK := 47
  const TRUNCATERESOURCEFORK := 49

  /** A call's arguments. The size is the value's, or the room for an answer. */
  datatype Call = Call(command: int, volume: int, path: seq<byte>, name: seq<byte>, offset: int, size: nat, flags: int,
                       value: seq<byte>)

  predicate SendsData(command: int) {
    command == SETXATTR || command == SETFINDERINFO || command == SETRESOURCEFORK
  }

  function Limit(command: int): nat {
    if command == LISTXATTR then XATTR_LIST_MAX else METADATA_CHUNK
  }

  predicate NeedsName(command: int) {
    command == GETXATTR || command == SETXATTR || command == REMOVEXATTR
  }

  /** What C's types allow: bytes, 64-bit handles and offsets, and strings. */
  predicate Typed(c: Call) {
    && 0 <= c.command < 256 && 0 <= c.volume < 0x1_0000_0000_0000_0000 && 0 <= c.offset < 0x1_0000_0000_0000_0000
    && CString(c.path) && CString(c.name) && (c.value != [] ==> SendsData(c.command))
    && (SendsData(c.command) ==> |c.value| == c.size)
  }

  /** A call sets an attribute with at most one of its two flags, and reaches no byte of a resource fork past the
      largest int. */
  predicate Admitted(c: Call) {
    && (c.command == SETXATTR ==> c.flags == 0 || c.flags == XATTR_CREATE || c.flags == XATTR_REPLACE)
    && (c.command == SETRESOURCEFORK ==> c.offset <= INT_MAX && c.size <= INT_MAX - c.offset)
    && (c.command == TRUNCATERESOURCEFORK ==> c.offset <= INT_MAX)
  }

  function U64(v: int): (b: seq<byte>)
    requires 0 <= v < 0x1_0000_0000_0000_0000
    ensures |b| == 8
  {
    U32(v / 0x1_0000_0000) + U32(v % 0x1_0000_0000)
  }

  function Get64(b: seq<byte>, at: nat): int
    requires at + 8 <= |b|
  {
    Get32(b, at) * 0x1_0000_0000 + Get32(b, at + 4)
  }

  function Total(c: Call): nat {
    BASE + |c.path| + 1 + |c.name| + 1 + |c.value|
  }

  /** The fixed part: command, length, close flag, padding, volume, offset, size, flags and the two lengths. */
  function Fixed(c: Call): (b: seq<byte>)
    requires Typed(c) && Total(c) <= UINT32_MAX && c.size <= UINT32_MAX && 0 <= c.flags <= UINT32_MAX
    ensures |b| == BASE
  {
    [c.command as byte, 0, 0, 0] + U32(Total(c)) + U32(0) + Zeros(4) + U64(c.volume) + U64(c.offset)
    + U32(c.size) + U32(c.flags) + U32(|c.path|) + U32(|c.name|)
  }

  /** The calls metadata_call sends a request for. */
  predicate Buildable(c: Call) {
    && c.size <= Limit(c.command) && (NeedsName(c.command) ==> c.name != [])
    && (c.command == SETFINDERINFO ==> c.size == 32)
    && |c.path| <= PATH_MAX_BYTES && |c.name| < 256
  }

  function Wire(c: Call): (b: seq<byte>)
    requires Typed(c) && Buildable(c) && 0 <= c.flags <= UINT32_MAX
    ensures |b| == Total(c)
  {
    Fixed(c) + c.path + [0] + c.name + [0] + c.value
  }

  /** metadata_call, up to the send. */
  method BuildRequest(c: Call) returns (r: Result<seq<byte>>)
    requires Typed(c) && 0 <= c.flags <= UINT32_MAX
    ensures r.Ok? <==> Buildable(c)
    ensures r.Ok? ==> r.value == Wire(c)
  {
    if c.size > Limit(c.command) || (NeedsName(c.command) && c.name == [])
       || (c.command == SETFINDERINFO && c.size != 32) {
      return Err(EINVAL);
    }
    if |c.path| > PATH_MAX_BYTES || |c.name| >= 256 {
      return Err(ENAMETOOLONG);
    }
    return Ok(Fixed(c) + c.path + [0] + c.name + [0] + c.value);
  }

  lemma Get64U64(b: seq<byte>, at: nat, v: int)
    requires 0 <= v < 0x1_0000_0000_0000_0000 && at + 8 <= |b| && b[at..at + 8] == U64(v)
    ensures Get64(b, at) == v
  {
    var hi, lo := U32(v / 0x1_0000_0000), U32(v % 0x1_0000_0000);
    assert b[at..at + 4] == b[at..at + 8][..4] == hi && b[at + 4..at + 8] == b[at..at + 8][4..] == lo;
    Get32U32(b, at, v / 0x1_0000_0000);
    Get32U32(b, at + 4, v % 0x1_0000_0000);
  }

  lemma Get32U32(b: seq<byte>, at: nat, v: int)
    requires 0 <= v <= UINT32_MAX && at + 4 <= |b| && b[at..at + 4] == U32(v)
    ensures Get32(b, at) == v
  {
    var field := b[at..at + 4];
    assert b[at] == field[0] && b[at + 1] == field[1] && b[at + 2] == field[2] && b[at + 3] == field[3];
    Get32Same(b, at, U32(v), 0);
  }

  /** Where a request's fields lie. */
  lemma FixedFields(c: Call, b: seq<byte>)
    requires Typed(c) && Buildable(c) && 0 <= c.flags <= UINT32_MAX && Fixed(c) <= b
    ensures b[0] as int == c.command && Get32(b, 4) == Total(c)
    ensures Get64(b, 16) == c.volume && Get64(b, 24) == c.offset
    ensures Get32(b, 32) == c.size && Get32(b, 36) == c.flags && Get32(b, 40) == |c.path| && Get32(b, 44) == |c.name|
  {
    hide U32, U64, Get32, Get64;
    var f := Fixed(c);
    assert b[4..8] == f[4..8] == U32(Total(c));
    assert b[16..24] == f[16..24] == U64(c.volume);
    assert b[24..32] == f[24..32] == U64(c.offset);
    assert b[32..36] == f[32..36] == U32(c.size);
    assert b[36..40] == f[36..40] == U32(c.flags);
    assert b[40..44] == f[40..44] == U32(|c.path|);
    assert b[44..48] == f[44..48] == U32(|c.name|);
    Get32U32(b, 4, Total(c));
    Get64U64(b, 16, c.volume);
    Get64U64(b, 24, c.offset);
    Get32U32(b, 32, c.size);
    Get32U32(b, 36, c.flags);
    Get32U32(b, 40, |c.path|);
    Get32U32(b, 44, |c.name|);
  }

  lemma WireParts(c: Call)
    requires Typed(c) && Buildable(c) && 0 <= c.flags <= UINT32_MAX
    ensures c.name != [] ==> c.name[0] != 0
    ensures var b, data := Wire(c), Wire(c)[BASE..];
      && Fixed(c) <= b
      && data[..|c.path|] == c.path && data[|c.path|] == 0
      && data[|c.path| + 1..|c.path| + 1 + |c.name|] == c.name && data[|c.path| + 1 + |c.name|] == 0
      && data[|c.path| + 1 + |c.name| + 1..] == c.value
  {
    hide Fixed;
    var data := Wire(c)[BASE..];
    assert data == c.path + [0] + c.name + [0] + c.value;
  }

  /** The C string that starts some bytes. */
  function Text(b: seq<byte>): (t: seq<byte>)
    ensures CString(b) ==> t == b
  {
    if b == [] || b[0] == 0 then [] else
      assert CString(b) ==> CString(b[1..]);
      [b[0]] + Text(b[1..])
  }

  /** The bytes hold the call's fields in their places. */
  ghost predicate Built(c: Call, b: seq<byte>) {
    && Typed(c) && Buildable(c) && |b| == Total(c) && (c.name != [] ==> c.name[0] != 0)
    && b[0] as int == c.command && Get32(b, 4) == Total(c) && Get64(b, 16) == c.volume && Get64(b, 24) == c.offset
    && Get32(b, 32) == c.size && Get32(b, 36) == c.flags && Get32(b, 40) == |c.path| && Get32(b, 44) == |c.name|
    && var data := b[BASE..];
       && data[..|c.path|] == c.path && data[|c.path|] == 0
       && data[|c.path| + 1..|c.path| + 1 + |c.name|] == c.name && data[|c.path| + 1 + |c.name|] == 0
       && data[|c.path| + 1 + |c.name| + 1..] == c.value
  }

  /** What process_metadata reads from a request of the right length. */
  function Parsed(b: seq<byte>): Call
    requires |b| >= BASE && |b| >= BASE + Get32(b, 40) + 1 + Get32(b, 44) + 1
  {
    var pathLen, nameLen, data := Get32(b, 40), Get32(b, 44), b[BASE..];
    Call(b[0] as int, Get64(b, 16), Text(data[..pathLen]), Text(data[pathLen + 1..pathLen + 1 + nameLen]),
         Get64(b, 24), Get32(b, 32), Get32(b, 36), data[pathLen + 1 + nameLen + 1..])
  }

  /** The lengths a request gives are its own, within the limits, and its texts have their terminators. */
  predicate Shaped(b: seq<byte>) {
    && |b| >= BASE && Get32(b, 40) <= PATH_MAX_BYTES && Get32(b, 44) < 256
    && Get32(b, 32) <= Limit(b[0] as int)
    && |b| == Get32(b, 4)
       == BASE + Get32(b, 40) + 1 + Get32(b, 44) + 1 + (if SendsData(b[0] as int) then Get32(b, 32) else 0)
    && b[BASE + Get32(b, 40)] == 0 && b[BASE + Get32(b, 40) + 1 + Get32(b, 44)] == 0
  }

  /** The first checks of process_metadata. */
  method CheckShape(b: seq<byte>) returns (ok: bool)
    ensures ok <==> Shaped(b)
  {
    hide Get32;
    if |b| < BASE {
      return false;
    }
    var command, length, size, pathLen, nameLen := b[0] as int, Get32(b, 4), Get32(b, 32), Get32(b, 40), Get32(b, 44);
    if pathLen > PATH_MAX_BYTES || nameLen >= 256 {
      return false;
    }
    var expected := BASE + pathLen + 1 + nameLen + 1 + if SendsData(command) then size else 0;
    if size > Limit(command) || length != expected || |b| != length {
      return false;
    }
    return b[BASE + pathLen] == 0 && b[BASE + pathLen + 1 + nameLen] == 0;
  }

  lemma BuiltShaped(c: Call, b: seq<byte>)
    requires Built(c, b)
    ensures Shaped(b) && Parsed(b) == c
  {
    hide Get32, Get64, Text;
    assert b[BASE..][|c.path|] == b[BASE + |c.path|];
    assert b[BASE..][|c.path| + 1 + |c.name|] == b[BASE + |c.path| + 1 + |c.name|];
  }

  lemma ShapedParses(b: seq<byte>)
    requires Shaped(b)
    ensures |b| >= BASE && |b| >= BASE + Get32(b, 40) + 1 + Get32(b, 44) + 1
    ensures var c := Parsed(b);
      && c.size <= Limit(c.command) && |c.path| <= PATH_MAX_BYTES && |c.name| < 256 && Get32(b, 4) == |b|
      && |c.value| == (if SendsData(c.command) then c.size else 0)
  {
    hide Get32, Get64, Text, Limit;
    var pathLen, nameLen, data := Get32(b, 40), Get32(b, 44), b[BASE..];
    TextBounds(data[..pathLen]);
    TextBounds(data[pathLen + 1..pathLen + 1 + nameLen]);
  }

  /** The checks of process_metadata, and what it reads from a request that passes them. */
  method CheckRequest(b: seq<byte>) returns (r: Result<Call>)
    ensures r.Ok? ==> Buildable(r.value) && |b| >= BASE && Get32(b, 4) == |b|
    ensures r.Ok? ==> |r.value.value| == if SendsData(r.value.command) then r.value.size else 0
    ensures r.Ok? ==> Admitted(r.value)
    ensures forall c :: Typed(c) && Buildable(c) && 0 <= c.flags <= UINT32_MAX && b == Wire(c) ==>
      (r.Ok? <==> Admitted(c)) && (r.Ok? ==> r.value == c)
  {
    hide U32, U64, Get32, Get64, Fixed, Wire, Text, CString, Shaped, Parsed, Typed;
    forall c | Typed(c) && Buildable(c) && 0 <= c.flags <= UINT32_MAX && b == Wire(c)
      ensures Shaped(b) && ParsesTo(b, c)
    {
      WireParts(c);
      FixedFields(c, b);
      BuiltIs(c, b);
      BuiltShaped(c, b);
    }
    var shaped := CheckShape(b);
    if !shaped {
      return Err(EINVAL);
    }
    ShapedParses(b);
    var c := Parsed(b);
    if NeedsName(c.command) && c.name == [] {
      return Err(EINVAL);
    }
    if c.command == SETFINDERINFO && c.size != 32 {
      return Err(EINVAL);
    }
    if c.command == SETXATTR && c.flags != 0 && c.flags != XATTR_CREATE && c.flags != XATTR_REPLACE {
      return Err(EINVAL);
    }
    if c.command == SETRESOURCEFORK && (c.offset > INT_MAX || c.size > INT_MAX - c.offset) {
      return Err(EFBIG);
    }
    if c.command == TRUNCATERESOURCEFORK && c.offset > INT_MAX {
      return Err(EFBIG);
    }
    return Ok(c);
  }

  ghost predicate ParsesTo(b: seq<byte>, c: Call) {
    Shaped(b) && Parsed(b) == c
  }

  lemma BuiltIs(c: Call, b: seq<byte>)
    requires Typed(c) && Buildable(c) && 0 <= c.flags <= UINT32_MAX && b == Wire(c) && (c.name != [] ==> c.name[0] != 0)
    requires b[0] as int == c.command && Get32(b, 4) == Total(c) && Get64(b, 16) == c.volume && Get64(b, 24) == c.offset
    requires Get32(b, 32) == c.size && Get32(b, 36) == c.flags && Get32(b, 40) == |c.path| && Get32(b, 44) == |c.name|
    requires var data := b[BASE..];
      && data[..|c.path|] == c.path && data[|c.path|] == 0
      && data[|c.path| + 1..|c.path| + 1 + |c.name|] == c.name && data[|c.path| + 1 + |c.name|] == 0
      && data[|c.path| + 1 + |c.name| + 1..] == c.value
    ensures Built(c, b)
  {
    hide Get32, Get64, Fixed;
  }

  /** A call as the daemon gets it: whole, and exactly when its arguments are within the limits of both ends. */
  method Deliver(c: Call) returns (r: Result<Call>)
    requires Typed(c) && 0 <= c.flags <= UINT32_MAX
    ensures r.Ok? <==> Buildable(c) && Admitted(c)
    ensures r.Ok? ==> r.value == c
  {
    var request := BuildRequest(c);
    if request.Err? {
      return Err(request.error);
    }
    r := CheckRequest(request.value);
  }

  lemma {:induction false} TextBounds(b: seq<byte>)
    ensures |Text(b)| <= |b| && (b != [] && b[0] != 0 ==> Text(b) != [])
  {
    if b != [] && b[0] != 0 {
      TextBounds(b[1..]);
    }
  }

  /** The limits of the calls, by number: 224 KiB for a list of names, and a message for anything else. */
  lemma Limits(c: Call)
    ensures Buildable(c) ==> c.size <= 229376 && (c.command != 41 ==> c.size <= 4096)
    ensures c.command == 41 && c.size <= 229376 && |c.path| <= 65535 && |c.name| <= 255 ==> Buildable(c)
    ensures c.command in {43, 45, 46, 47, 48, 49} && c.size <= 4096 && |c.path| <= 65535 && |c.name| <= 255 ==> Buildable(c)
    ensures c.command in {39, 40, 42} && c.size <= 4096 && |c.path| <= 65535 && 0 < |c.name| <= 255 ==> Buildable(c)
    ensures c.command in {39, 40, 42} && c.name == [] ==> !Buildable(c)
    ensures c.command == 44 ==> (Buildable(c) <==> c.size == 32 && |c.path| <= 65535 && |c.name| <= 255)
    ensures SendsData(c.command) <==> c.command in {40, 44, 47}
  {
  }
}
