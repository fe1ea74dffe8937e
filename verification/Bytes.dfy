/** Bytes, big-endian integers, and the POSIX calls the sources make on an open file:
    a file is its byte sequence, and a write or a truncation past its end fills with zeros. */
module Bytes {

  newtype byte = x: int | 0 <= x < 256

  const UINT32_MAX: int := 0xffff_ffff

  /** The errno values the modelled code distinguishes, as the source names them. */
  datatype Errno =
    EIO | EINVAL | ENOATTR | ERANGE | EFBIG | E2BIG | ENOTSUP | ENOENT | ENAMETOOLONG | ECONNRESET | EPROTO

  datatype Result<+T> = Ok(value: T) | Err(error: Errno) {
    predicate IsFailure() {
      Err?
    }

    function PropagateFailure<U>(): Result<U>
      requires Err?
    {
      Err(error)
    }

    function Extract(): T
      requires Ok?
    {
      value
    }
  }

  datatype Option<+T> = None | Some(value: T)

  /** Some items, and then the rest if there is one. */
  function Then<T>(items: seq<T>, rest: Option<seq<T>>): Option<seq<T>> {
    match rest
    case None => None
    case Some(more) => Some(items + more)
  }

  lemma ThenThen<T>(items: seq<T>, item: T, rest: Option<seq<T>>)
    ensures Then(items, Then([item], rest)) == Then(items + [item], rest)
  {
    if rest.Some? {
      assert items + ([item] + rest.value) == items + [item] + rest.value;
    }
  }

  /** htonl followed by a copy of the four bytes. */
  function U32(v: int): (b: seq<byte>)
    requires 0 <= v <= UINT32_MAX
    ensures |b| == 4 && Get32(b, 0) == v
  {
    var hi, lo := v / 0x1_0000, v % 0x1_0000;
    [(hi / 0x100) as byte, (hi % 0x100) as byte, (lo / 0x100) as byte, (lo % 0x100) as byte]
  }

  function U16(v: int): (b: seq<byte>)
    requires 0 <= v < 0x1_0000
    ensures |b| == 2 && Get16(b, 0) == v
  {
    [(v / 0x100) as byte, (v % 0x100) as byte]
  }

  function Get32(b: seq<byte>, at: nat): (v: int)
    requires at + 4 <= |b|
    ensures 0 <= v <= UINT32_MAX
  {
    b[at] as int * 0x100_0000 + b[at + 1] as int * 0x1_0000 + b[at + 2] as int * 0x100 + b[at + 3] as int
  }

  function Get16(b: seq<byte>, at: nat): (v: int)
    requires at + 2 <= |b|
    ensures 0 <= v < 0x1_0000
  {
    b[at] as int * 0x100 + b[at + 1] as int
  }

  // ----- the order of the bytes

  /** One sequence comes before another of its length, byte by byte. */
  ghost predicate Before(a: seq<byte>, b: seq<byte>) {
    |a| == |b| && exists k :: 0 <= k < |a| && a[..k] == b[..k] && a[k] < b[k]
  }

  /** The most significant byte comes first: a smaller number has the smaller bytes. */
  lemma U32Ordered(v: int, w: int)
    requires 0 <= v < w <= UINT32_MAX
    ensures Before(U32(v), U32(w))
  {
    var a, b := U32(v), U32(w);
    if a[0] != b[0] {
      assert a[..0] == b[..0] && a[0] < b[0];
    } else if a[1] != b[1] {
      assert a[..1] == b[..1] && a[1] < b[1];
    } else if a[2] != b[2] {
      assert a[..2] == b[..2] && a[2] < b[2];
    } else {
      assert a[..3] == b[..3] && a[3] < b[3];
    }
  }

  lemma U16Ordered(v: int, w: int)
    requires 0 <= v < w < 0x1_0000
    ensures Before(U16(v), U16(w))
  {
    var a, b := U16(v), U16(w);
    if a[0] != b[0] {
      assert a[..0] == b[..0] && a[0] < b[0];
    } else {
      assert a[..1] == b[..1] && a[1] < b[1];
    }
  }

  function Zeros(n: nat): (z: seq<byte>)
    ensures |z| == n
    ensures forall i :: 0 <= i < n ==> z[i] == 0
  {
    seq(n, _ => 0)
  }

  /** The file grown with zeros to at least n bytes. */
  function Grown(f: seq<byte>, n: nat): (g: seq<byte>)
    ensures |g| == if |f| < n then n else |f|
    ensures forall i :: 0 <= i < |g| ==> g[i] == if i < |f| then f[i] else 0
  {
    if |f| < n then f + Zeros(n - |f|) else f
  }

  /** pread(2): the bytes of [off, off + n) that the file has. */
  function Pread(f: seq<byte>, n: nat, off: nat): (d: seq<byte>)
    ensures |d| <= n
    ensures |d| == n <==> n == 0 || off + n <= |f|
    ensures off <= |f| ==> |d| == (if off + n <= |f| then n else |f| - off) && d == f[off..off + |d|]
    ensures off > |f| ==> d == []
  {
    if off >= |f| then [] else if off + n <= |f| then f[off..off + n] else f[off..]
  }

  /** pwrite(2): the bytes at off replaced, the gap before them filled with zeros. */
  function Pwrite(f: seq<byte>, data: seq<byte>, off: nat): (g: seq<byte>)
    ensures data == [] ==> g == f
    ensures data != [] ==> |g| == if |f| < off + |data| then off + |data| else |f|
    ensures data != [] ==> forall i :: 0 <= i < |g| ==>
      g[i] == if off <= i < off + |data| then data[i - off] else if i < |f| then f[i] else 0
  {
    if data == [] then f
    else
      var e := Grown(f, off + |data|);
      e[..off] + data + e[off + |data|..]
  }

  /** ftruncate(2). */
  function Ftruncate(f: seq<byte>, n: nat): (g: seq<byte>)
    ensures |g| == n
    ensures forall i :: 0 <= i < n ==> g[i] == if i < |f| then f[i] else 0
  {
    Grown(f, n)[..n]
  }

  /** The integer a position holds depends on its four bytes alone. */
  lemma Get32Same(a: seq<byte>, i: nat, b: seq<byte>, j: nat)
    requires i + 4 <= |a| && j + 4 <= |b|
    requires a[i] == b[j] && a[i + 1] == b[j + 1] && a[i + 2] == b[j + 2] && a[i + 3] == b[j + 3]
    ensures Get32(a, i) == Get32(b, j)
  {
  }

  lemma Get32Bytes(f: seq<byte>, at: nat)
    requires at + 4 <= |f|
    ensures f[at..at + 4] == U32(Get32(f, at))
  {
    var v := Get32(f, at);
    assert v / 0x1_0000 == f[at] as int * 0x100 + f[at + 1] as int;
  }

  lemma Get16Bytes(f: seq<byte>, at: nat)
    requires at + 2 <= |f|
    ensures f[at..at + 2] == U16(Get16(f, at))
  {
  }

  lemma Cut(f: seq<byte>, a: nat, p: nat)
    requires a <= p <= |f|
    ensures f[a..] == f[a..p] + f[p..] && f[a..][p - a..] == f[p..]
  {
  }

  type Path = seq<byte>
  type File = seq<byte>

  /** The directory the sidecar files live in. */
  class Disk {
    var files: map<Path, File>

    constructor ()
      ensures files == map[]
    {
      files := map[];
    }
  }
}
