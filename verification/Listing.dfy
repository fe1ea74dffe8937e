/** Directory listings across the daemon's socket: process_readdir of daemon/commands.c packs a slice of the sorted
    listing into one response, afp_sl_readdir of daemon/stateless.c asks for slices until it has a page, and
    remote_readdir_all of cmdline/cmdline_afp.c asks for pages until it has the directory. */
module Listing {
  import opened Bytes

  const MAX_RESPONSE := 65535 + 1024
  const RESPONSE_HEADER := 16
  const ATTRS_SIZE := 40
  const MAX_NAME_BYTES := 255 * 4 + 1
  const INT_MAX := 0x7fff_ffff

  /** A listed name, and its dates, privileges and size as their 40 bytes. */
  datatype Entry = Entry(name: seq<byte>, attrs: seq<byte>)

  predicate EntryOk(e: Entry) {
    |e.name| < MAX_NAME_BYTES && |e.attrs| == ATTRS_SIZE
  }

  predicate AllOk(es: seq<Entry>) {
    forall i :: 0 <= i < |es| ==> EntryOk(es[i])
  }

  function PackEntry(e: Entry): (b: seq<byte>)
    requires EntryOk(e)
    ensures |b| == 4 + |e.name| + ATTRS_SIZE
  {
    U32(|e.name|) + e.name + e.attrs
  }

  function Pack(es: seq<Entry>): seq<byte>
    requires AllOk(es)
  {
    if es == [] then [] else PackEntry(es[0]) + Pack(es[1..])
  }

  lemma {:induction false} PackAppend(es: seq<Entry>, e: Entry)
    requires AllOk(es) && EntryOk(e)
    ensures AllOk(es + [e]) && Pack(es + [e]) == Pack(es) + PackEntry(e)
  {
    hide PackEntry;
    if es == [] {
      assert [e][1..] == [];
    } else {
      assert (es + [e])[1..] == es[1..] + [e];
      PackAppend(es[1..], e);
    }
  }

  // ----- the daemon's slice

  datatype Slice = Slice(count: nat, eod: bool, packed: seq<byte>)

  /** How many of the entries from start on a request asks for: all of them when its count is negative. */
  function Asked(n: nat, start: nat, count: int): nat
    requires start <= n
  {
    if 0 <= count < n - start then count else n - start
  }

  /** process_readdir, once the listing is sorted: as many of the entries asked for as the response holds. */
  method ProcessReaddir(listing: seq<Entry>, start: int, count: int) returns (r: Option<Slice>)
    requires AllOk(listing) && |listing| <= INT_MAX
    ensures r.Some? <==> 0 <= start <= |listing|
    ensures r.Some? ==>
      && r.value.count <= Asked(|listing|, start, count)
      && r.value.packed == Pack(listing[start..start + r.value.count])
      && (r.value.eod <==> start + r.value.count == |listing|)
      && (r.value.count < Asked(|listing|, start, count) ==> r.value.count > 0)
    ensures r.Some? ==> RESPONSE_HEADER + |r.value.packed| <= MAX_RESPONSE
    ensures r.Some? && start + r.value.count < |listing| && (count < 0 || r.value.count < count) ==>
      RESPONSE_HEADER + |r.value.packed| + |PackEntry(listing[start + r.value.count])| > MAX_RESPONSE
    ensures r.Some? && count >= 0 ==> r.value.count <= count
  {
    if start < 0 || start > |listing| {
      return None;
    }
    var packed: seq<byte> := [];
    var i := 0;
    while (count < 0 || i < count) && start + i < |listing|
      invariant 0 <= i <= Asked(|listing|, start, count)
      invariant packed == Pack(listing[start..start + i])
      invariant RESPONSE_HEADER + |packed| <= MAX_RESPONSE
      decreases |listing| - i
    {
      var e := listing[start + i];
      var entrySize := 4 + |e.name| + ATTRS_SIZE;
      if RESPONSE_HEADER + |packed| + entrySize > MAX_RESPONSE {
        break;
      }
      PackAppend(listing[start..start + i], e);
      assert listing[start..start + i] + [e] == listing[start..start + i + 1];
      packed := packed + PackEntry(e);
      i := i + 1;
    }
    r := Some(Slice(i, start + i >= |listing|, packed));
  }

  // ----- the client's unpacking

  /** The entries k codes in a row hold, if the bytes are that. */
  function Unpacked(b: seq<byte>, k: nat): Option<seq<Entry>> {
    if k == 0 then (if b == [] then Some([]) else None)
    else if |b| < 4 then None
    else
      var n := Get32(b, 0);
      if n >= MAX_NAME_BYTES || |b| - 4 < n + ATTRS_SIZE then None
      else
        Then([Entry(b[4..4 + n], b[4 + n..4 + n + ATTRS_SIZE])], Unpacked(b[4 + n + ATTRS_SIZE..], k - 1))
  }

  lemma EntryFields(e: Entry, rest: seq<byte>)
    requires EntryOk(e)
    ensures var b, n := PackEntry(e) + rest, |e.name|;
      && Get32(b, 0) == n && b[4..4 + n] == e.name
      && b[4 + n..4 + n + ATTRS_SIZE] == e.attrs && b[4 + n + ATTRS_SIZE..] == rest
  {
    Get32Same(PackEntry(e) + rest, 0, U32(|e.name|), 0);
  }

  /** Unpacking undoes packing. */
  lemma {:induction false} UnpackPack(es: seq<Entry>)
    requires AllOk(es)
    ensures Unpacked(Pack(es), |es|) == Some(es)
  {
    hide PackEntry, Get32;
    if es != [] {
      EntryFields(es[0], Pack(es[1..]));
      UnpackPack(es[1..]);
      assert [es[0]] + es[1..] == es;
    }
  }

  /** Only a code unpacks. */
  lemma {:induction false} PackUnpack(b: seq<byte>, k: nat)
    requires Unpacked(b, k).Some?
    ensures var es := Unpacked(b, k).value; |es| == k && AllOk(es) && Pack(es) == b
  {
    hide Get32, U32, PackEntry;
    if k > 0 {
      var n := Get32(b, 0);
      var e, rest := Entry(b[4..4 + n], b[4 + n..4 + n + ATTRS_SIZE]), b[4 + n + ATTRS_SIZE..];
      PackUnpack(rest, k - 1);
      var es := Unpacked(b, k).value;
      assert es == [e] + Unpacked(rest, k - 1).value && es[1..] == Unpacked(rest, k - 1).value;
      EntrySplit(b);
    }
  }

  lemma EntrySplit(b: seq<byte>)
    requires |b| >= 4 && Get32(b, 0) < MAX_NAME_BYTES && |b| - 4 >= Get32(b, 0) + ATTRS_SIZE
    ensures var n := Get32(b, 0);
      b == PackEntry(Entry(b[4..4 + n], b[4 + n..4 + n + ATTRS_SIZE])) + b[4 + n + ATTRS_SIZE..]
  {
    hide Get32, U32;
    Get32Bytes(b, 0);
  }

  /** The bounds check of afp_sl_readdir, before it unpacks anything. */
  method CheckEntries(b: seq<byte>, k: nat) returns (ok: bool)
    ensures ok <==> Unpacked(b, k).Some?
  {
    hide Get32;
    var p := 0;
    for i := 0 to k
      invariant 0 <= p <= |b| && (Unpacked(b, k).Some? <==> Unpacked(b[p..], k - i).Some?)
    {
      if |b| - p < 4 {
        return false;
      }
      Get32Tail(b, p);
      var n := Get32(b, p);
      if n >= MAX_NAME_BYTES || |b| - p - 4 < n + ATTRS_SIZE {
        return false;
      }
      assert b[p..][4 + n + ATTRS_SIZE..] == b[p + 4 + n + ATTRS_SIZE..];
      p := p + 4 + n + ATTRS_SIZE;
    }
    return p == |b|;
  }

  lemma Get32Tail(b: seq<byte>, p: nat)
    requires p + 4 <= |b|
    ensures Get32(b[p..], 0) == Get32(b, p)
  {
  }

  /** The unpacking loop, on bytes that passed the check. */
  method UnpackEntries(b: seq<byte>, k: nat) returns (es: seq<Entry>)
    requires Unpacked(b, k).Some?
    ensures es == Unpacked(b, k).value
  {
    hide Get32;
    var p := 0;
    es := [];
    assert b[0..] == b && [] + Unpacked(b, k).value == Unpacked(b, k).value;
    for i := 0 to k
      invariant 0 <= p <= |b| && Unpacked(b, k) == Then(es, Unpacked(b[p..], k - i))
    {
      Get32Tail(b, p);
      var n := Get32(b, p);
      var e := Entry(b[p + 4..p + 4 + n], b[p + 4 + n..p + 4 + n + ATTRS_SIZE]);
      assert b[p..][4 + n + ATTRS_SIZE..] == b[p + 4 + n + ATTRS_SIZE..];
      assert b[p..][4..4 + n] == e.name && b[p..][4 + n..4 + n + ATTRS_SIZE] == e.attrs;
      ThenThen(es, e, Unpacked(b[p + 4 + n + ATTRS_SIZE..], k - i - 1));
      es, p := es + [e], p + 4 + n + ATTRS_SIZE;
    }
    assert es + [] == es;
  }

  // ----- the client's page

  /** requested_count: a positive count is raised to 256, and a negative one wraps to an unsigned number. */
  function Requested(count: int): (n: nat)
    requires -INT_MAX - 1 <= count <= INT_MAX
    ensures count < 0 ==> n > INT_MAX
  {
    if 0 < count < 256 then 256 else if count < 0 then 0x1_0000_0000 + count else count
  }

  /** An unsigned number read as an int. */
  function AsInt(n: nat): int
    requires n <= UINT32_MAX
  {
    if n > INT_MAX then n - 0x1_0000_0000 else n
  }

  function Least(m: int, n: int): int {
    if m < n then m else n
  }

  /** The end of a page: where the entries asked for end, or the listing. */
  function PageEnd(n: nat, start: nat, requested: nat): nat
    requires start <= n
  {
    if start + requested < n then start + requested else n
  }

  /** afp_sl_readdir: the entries from start on, in order, as many as asked for or as there are, and the end flag
      exactly when the page ends with the listing. A count of 0 asks for nothing and is told nothing. */
  method Readdir(listing: seq<Entry>, start: int, count: int) returns (r: Result<(seq<Entry>, bool)>)
    requires AllOk(listing) && |listing| <= INT_MAX && -INT_MAX - 1 <= count <= INT_MAX && -INT_MAX - 1 <= start <= INT_MAX
    ensures r.Ok? <==> count == 0 || 0 <= start <= |listing|
    ensures count == 0 ==> r == Ok(([], false))
    ensures count != 0 && r.Ok? ==>
      var end := PageEnd(|listing|, start, Requested(count));
      r.value == (listing[start..end], end == |listing|)
    ensures count > 0 && r.Ok? ==>
      && |r.value.0| == Least(if count < 256 then 256 else count, |listing| - start)
      && r.value == (listing[start..start + |r.value.0|], start + |r.value.0| == |listing|)
    ensures count < 0 && r.Ok? ==> r.value == (listing[start..], true)
  {
    var requested := Requested(count);
    var files: seq<Entry> := [];
    var eod := false;
    while |files| < requested && !eod
      invariant |files| <= requested && (requested == 0 ==> !eod)
      invariant files != [] || eod ==> 0 <= start <= |listing|
      invariant 0 <= start <= |listing| ==> start + |files| <= |listing| && files == listing[start..start + |files|]
      invariant eod ==> start + |files| == |listing|
      invariant !eod && files != [] ==> start + |files| < |listing|
      decreases requested - |files|, !eod
    {
      var batch := FetchBatch(listing, start + |files|, requested - |files|);
      match batch {
        case Err(e) =>
          return Err(e);
        case Ok((more, end)) =>
          assert listing[start..start + |files|] + more == listing[start..start + |files| + |more|];
          files := files + more;
          if end {
            eod := true;
          }
          if more == [] && !eod {
            break;
          }
      }
    }
    assert eod ==> listing[start..] == listing[start..|listing|];
    return Ok((files, eod));
  }

  /** One turn of afp_sl_readdir: a request, the check of its answer, and the entries in it. */
  method FetchBatch(listing: seq<Entry>, from: int, batch: nat) returns (r: Result<(seq<Entry>, bool)>)
    requires AllOk(listing) && |listing| <= INT_MAX && 0 < batch <= UINT32_MAX
    ensures r.Ok? <==> 0 <= from <= |listing|
    ensures r.Ok? ==>
      var k := |r.value.0|;
      && k <= batch && from + k <= |listing| && r.value.0 == listing[from..from + k]
      && (r.value.1 <==> from + k == |listing|) && (k == 0 ==> from == |listing|)
  {
    hide Pack, Unpacked;
    var slice := ProcessReaddir(listing, from, AsInt(batch));
    if slice.None? {
      return Err(EIO);
    }
    var Slice(got, end, packed) := slice.value;
    if got > batch {
      return Err(EPROTO);
    }
    if got == 0 {
      return Ok(([], end));
    }
    UnpackPack(listing[from..from + got]);
    var ok := CheckEntries(packed, got);
    if !ok {
      return Err(EPROTO);
    }
    var more := UnpackEntries(packed, got);
    return Ok((more, end));
  }

  /** remote_readdir_all: every entry of the listing, once and in order. */
  method ReaddirAll(listing: seq<Entry>) returns (r: Result<seq<Entry>>)
    requires AllOk(listing) && |listing| <= INT_MAX
    ensures r == Ok(listing)
  {
    var all: seq<Entry> := [];
    var eod := false;
    while !eod
      invariant |all| <= |listing| && all == listing[..|all|]
      invariant eod ==> |all| == |listing|
      decreases |listing| - |all|, !eod
    {
      var page := Readdir(listing, |all|, 256);
      match page {
        case Err(e) =>
          return Err(e);
        case Ok((files, end)) =>
          eod := end;
          if files == [] {
            break;
          }
          all := all + files;
      }
    }
    assert listing[..|listing|] == listing;
    return Ok(all);
  }
}
