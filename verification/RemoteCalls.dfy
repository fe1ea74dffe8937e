/** The calls of the client library that read a remote file's metadata, as daemon/metadata.c makes them while it copies
    the file's metadata to a local one. */
module RemoteCalls {
  import opened Bytes
  import opened EaHeader
  import opened NameList
  import opened Attributes

  const AFP_SL_METADATA_CHUNK := 4096
  const AFP_SL_XATTR_LIST_MAX := 224 * 1024

  /** A remote file's metadata while the copy runs: its FinderInfo or the reason there is none, its resource
      fork, and its attributes in the order the server lists them. */
  datatype Remote = Remote(info: Result<seq<byte>>, fork: seq<byte>, order: seq<Name>, attrs: map<Name, seq<byte>>)

  ghost predicate Stable(src: Remote) {
    && (src.info.Ok? ==> |src.info.value| == 32)
    && |src.fork| <= 0x7fff_ffff
    && Enumerates(src.order, src.attrs.Keys)
  }

  /** A call: the reads of the fork by their turn, and for the list and each value one for its length and one for it. */
  datatype Call = ForkSize | ForkRead(turn: nat) | ListLength | List | ValueLength(name: Name) | Value(name: Name)

  /** The calls that fail, and how many bytes each read of the fork may give. A read past the last gives all it can. */
  datatype Answers = Answers(failures: map<Call, Errno>, cuts: seq<nat>)

  /** No call says that something is absent that is there. */
  ghost predicate Honest(src: Remote, a: Answers) {
    forall c :: c in a.failures && a.failures[c] == ENOATTR ==>
      match c
      case ForkSize => src.fork == []
      case ForkRead(turn) => true
      case ListLength => src.order == []
      case List => src.order == []
      case ValueLength(name) => false
      case Value(name) => false
  }

  /** What a call answers: what it asks for, unless it fails. */
  function Answer<T>(a: Answers, c: Call, value: T): Result<T> {
    if c in a.failures then Err(a.failures[c]) else Ok(value)
  }

  // ----- the resource fork

  method RemoteForkSize(src: Remote, a: Answers) returns (r: Result<nat>)
    ensures r == Answer(a, ForkSize, |src.fork|)
  {
    return Answer(a, ForkSize, |src.fork|);
  }

  /** How many bytes a read gives of those it asks for. */
  function Given(a: Answers, turn: nat, size: nat): (n: nat)
    ensures n <= size
  {
    if turn < |a.cuts| && a.cuts[turn] < size then a.cuts[turn] else size
  }

  method RemoteForkRead(src: Remote, a: Answers, turn: nat, size: nat, offset: nat) returns (r: Result<seq<byte>>)
    requires offset + size <= |src.fork|
    ensures r == Answer(a, ForkRead(turn), src.fork[offset..offset + Given(a, turn, size)])
  {
    return Answer(a, ForkRead(turn), src.fork[offset..offset + Given(a, turn, size)]);
  }

  /** How many bytes are asked for at a place of the fork. */
  function Chunk(src: Remote, offset: nat): (n: nat)
    requires offset <= |src.fork|
    ensures offset + n <= |src.fork| && (n == 0 <==> offset == |src.fork|)
  {
    if |src.fork| - offset > AFP_SL_METADATA_CHUNK then AFP_SL_METADATA_CHUNK else |src.fork| - offset
  }

  /** From a turn and a place on, every read gives a byte until the fork is there. */
  predicate RestArrives(src: Remote, a: Answers, turn: nat, offset: nat)
    requires offset <= |src.fork|
    decreases |src.fork| - offset
  {
    || offset == |src.fork|
    || (ForkRead(turn) !in a.failures && Given(a, turn, Chunk(src, offset)) > 0
        && RestArrives(src, a, turn + 1, offset + Given(a, turn, Chunk(src, offset))))
  }

  predicate ForkArrives(src: Remote, a: Answers) {
    (ForkSize in a.failures ==> a.failures[ForkSize] == ENOATTR) && RestArrives(src, a, 0, 0)
  }

  // ----- the attributes

  /** afp_sl_listxattr: without room the length of the list, and with it the list. */
  method ListCall(src: Remote, a: Answers, room: nat) returns (r: Result<(nat, seq<byte>)>)
    ensures room == 0 ==> r == Answer(a, ListLength, (|Joined(src.order)|, []))
    ensures 0 < |Joined(src.order)| <= room ==> r == Answer(a, List, (|Joined(src.order)|, Joined(src.order)))
  {
    var list := Joined(src.order);
    if room == 0 {
      return Answer(a, ListLength, (|list|, []));
    }
    return if |list| <= room then Answer(a, List, (|list|, list)) else Err(ERANGE);
  }

  /** The list of names arrives, or there is none. */
  predicate ListArrives(src: Remote, a: Answers) {
    && (ListLength in a.failures ==> a.failures[ListLength] == ENOATTR)
    && (src.order != [] ==> |Joined(src.order)| <= AFP_SL_XATTR_LIST_MAX && List !in a.failures)
  }

  lemma JoinedNothing(names: seq<Name>)
    ensures Joined(names) == [] <==> names == []
  {
  }

  /** transfer_remote_list: a list longer than the limit is refused. */
  method RemoteList(src: Remote, a: Answers) returns (r: Result<seq<byte>>)
    requires Honest(src, a)
    ensures r.Ok? ==> r.value == Joined(src.order) && |r.value| <= AFP_SL_XATTR_LIST_MAX
    ensures r == Err(ENOATTR) ==> src.order == []
    ensures ListArrives(src, a) <==> r.Ok? || r.error == ENOATTR
    ensures ListLength !in a.failures && |Joined(src.order)| > AFP_SL_XATTR_LIST_MAX ==> r == Err(E2BIG)
  {
    hide Joined;
    JoinedNothing(src.order);
    var size := ListCall(src, a, 0);
    if size.Err? {
      return Err(size.error);
    }
    if size.value.0 == 0 {
      return Ok([]);
    }
    if size.value.0 > AFP_SL_XATTR_LIST_MAX {
      return Err(E2BIG);
    }
    var list := ListCall(src, a, size.value.0);
    return if list.Err? then Err(list.error) else Ok(list.value.1);
  }

  /** afp_sl_getxattr: without room the length of the value, and with it the value. */
  method GetCall(src: Remote, a: Answers, name: Name, room: nat) returns (r: Result<(nat, seq<byte>)>)
    requires name in src.attrs
    ensures room == 0 ==> r == Answer(a, ValueLength(name), (|src.attrs[name]|, []))
    ensures 0 < |src.attrs[name]| <= room ==> r == Answer(a, Value(name), (|src.attrs[name]|, src.attrs[name]))
  {
    var value := src.attrs[name];
    if room == 0 {
      return Answer(a, ValueLength(name), (|value|, []));
    }
    return if |value| <= room then Answer(a, Value(name), (|value|, value)) else Err(ERANGE);
  }

  /** An attribute's value arrives. */
  predicate ValueArrives(src: Remote, a: Answers, name: Name)
    requires name in src.attrs
  {
    && ValueLength(name) !in a.failures && |src.attrs[name]| <= AFP_SL_METADATA_CHUNK
    && (src.attrs[name] != [] ==> Value(name) !in a.failures)
  }

  /** transfer_remote_get: a value longer than a message is refused. */
  method RemoteGet(src: Remote, a: Answers, name: Name) returns (r: Result<seq<byte>>)
    requires name in src.attrs && Honest(src, a)
    ensures r.Ok? <==> ValueArrives(src, a, name)
    ensures r.Ok? ==> r.value == src.attrs[name] && |r.value| <= AFP_SL_METADATA_CHUNK
    ensures r.Err? ==> r.error != ENOATTR
    ensures ValueLength(name) !in a.failures && |src.attrs[name]| > AFP_SL_METADATA_CHUNK ==> r == Err(E2BIG)
  {
    var size := GetCall(src, a, name, 0);
    if size.Err? {
      return Err(size.error);
    }
    if size.value.0 > AFP_SL_METADATA_CHUNK {
      return Err(E2BIG);
    }
    if size.value.0 == 0 {
      return Ok([]);
    }
    var value := GetCall(src, a, name, size.value.0);
    return if value.Err? then Err(value.error) else Ok(value.value.1);
  }

  // ----- a source that answers

  /** Without a failure and without an empty read, the whole fork arrives, however it is cut. */
  lemma {:induction false} CleanFork(src: Remote, a: Answers, turn: nat, offset: nat)
    requires offset <= |src.fork| && a.failures == map[] && forall i :: 0 <= i < |a.cuts| ==> a.cuts[i] > 0
    ensures RestArrives(src, a, turn, offset)
    decreases |src.fork| - offset
  {
    if offset < |src.fork| {
      CleanFork(src, a, turn + 1, offset + Given(a, turn, Chunk(src, offset)));
    }
  }

  /** An empty or a failing read that is made keeps it from arriving. */
  lemma {:induction false} BadRead(src: Remote, a: Answers, bad: nat, turn: nat, offset: nat)
    requires offset < |src.fork| && turn <= bad && (bad - turn) * AFP_SL_METADATA_CHUNK < |src.fork| - offset
    requires ForkRead(bad) in a.failures || (bad < |a.cuts| && a.cuts[bad] == 0)
    ensures !RestArrives(src, a, turn, offset)
    decreases bad - turn
  {
    if turn < bad && Given(a, turn, Chunk(src, offset)) > 0 {
      BadRead(src, a, bad, turn + 1, offset + Given(a, turn, Chunk(src, offset)));
    }
  }
}
