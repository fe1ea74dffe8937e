/** The AppleDouble sidecar of daemon/metadata.c (Appendix B of RFC 1740): a 26-byte header, a table of
    12-byte entry descriptors, and the entries' data. FinderInfo (entry 9) and the resource fork (entry 2)
    are read and written in place. */
module AppleDouble {
  import opened Bytes

  const AD_MAGIC := 0x0005_1607
  const AD_VERSION := 0x0002_0000
  const AD_HEADER_SIZE := 26
  const AD_ENTRY_SIZE := 12
  const AD_FINDER_ID := 9
  const AD_RESOURCE_ID := 2
  const AD_MACOS_DATA_OFFSET := 82
  const AD_NETATALK_DATA_OFFSET := 741

  datatype AdEntry = AdEntry(id: int, offset: nat, length: nat, headerOffset: nat)

  const NO_ENTRY := AdEntry(0, 0, 0, 0)

  datatype AdInfo = AdInfo(finder: AdEntry, resource: AdEntry)

  // ----- what a sidecar file says

  predicate HeaderOk(f: File) {
    |f| >= AD_HEADER_SIZE && Get32(f, 0) == AD_MAGIC && Get32(f, 4) == AD_VERSION && 1 <= Get16(f, 24) <= 32
  }

  function Count(f: File): nat
    requires HeaderOk(f)
  {
    Get16(f, 24)
  }

  /** The file holds the first n descriptors. */
  predicate TableFits(f: File, n: nat) {
    |f| >= AD_HEADER_SIZE + AD_ENTRY_SIZE * n
  }

  function EntryAt(f: File, i: nat): (e: AdEntry)
    requires TableFits(f, i + 1)
  {
    var at := AD_HEADER_SIZE + AD_ENTRY_SIZE * i;
    AdEntry(Get32(f, at), Get32(f, at + 4), Get32(f, at + 8), at)
  }

  predicate Special(id: int) {
    id == AD_FINDER_ID || id == AD_RESOURCE_ID
  }

  /** Descriptor i lies inside the file, and no earlier descriptor of its special id has a place. */
  predicate EntryOk(f: File, i: nat)
    requires TableFits(f, i + 1)
  {
    && EntryAt(f, i).offset + EntryAt(f, i).length <= |f|
    && (Special(EntryAt(f, i).id) ==>
          forall j :: 0 <= j < i && EntryAt(f, j).id == EntryAt(f, i).id ==> EntryAt(f, j).offset == 0)
  }

  predicate Accepted(f: File) {
    && HeaderOk(f) && TableFits(f, Count(f))
    && forall i :: 0 <= i < Count(f) ==> EntryOk(f, i)
  }

  /** The index of the last of the first n descriptors with an id, or -1. */
  function LastOf(f: File, id: int, n: nat): (k: int)
    requires TableFits(f, n)
    ensures -1 <= k < n
    ensures k >= 0 ==> EntryAt(f, k).id == id
    ensures forall j :: k < j < n ==> EntryAt(f, j).id != id
  {
    if n == 0 then -1 else if EntryAt(f, n - 1).id == id then n - 1 else LastOf(f, id, n - 1)
  }

  function EntryOf(f: File, id: int, n: nat): (e: AdEntry)
    requires TableFits(f, n)
    ensures e.length <= UINT32_MAX
  {
    var k := LastOf(f, id, n);
    if k < 0 then NO_ENTRY else EntryAt(f, k)
  }

  lemma EntryPlaced(f: File, id: int)
    requires Accepted(f)
    ensures EntryOf(f, id, Count(f)).offset + EntryOf(f, id, Count(f)).length <= |f|
  {
    var k := LastOf(f, id, Count(f));
    assert k >= 0 ==> EntryOk(f, k);
  }

  function InfoOf(f: File): (info: AdInfo)
    requires Accepted(f)
    ensures info.resource.length <= UINT32_MAX
    ensures info.finder.offset + info.finder.length <= |f| && info.resource.offset + info.resource.length <= |f|
  {
    EntryPlaced(f, AD_FINDER_ID);
    EntryPlaced(f, AD_RESOURCE_ID);
    AdInfo(EntryOf(f, AD_FINDER_ID, Count(f)), EntryOf(f, AD_RESOURCE_ID, Count(f)))
  }

  /** A file cut off in its header or table, all of whose whole descriptors pass, is an I/O error. */
  predicate CutShort(f: File) {
    || |f| < AD_HEADER_SIZE
    || (HeaderOk(f) && forall i {:trigger EntryOk(f, i)} :: 0 <= i < Count(f) && TableFits(f, i + 1) ==> EntryOk(f, i))
  }

  /** read_ad_info: accepts exactly the Accepted files. */
  method ReadAdInfo(f: File) returns (r: Result<AdInfo>)
    ensures r.Ok? <==> Accepted(f)
    ensures r.Ok? ==> r.value == InfoOf(f)
    ensures r.Err? ==> r.error == if CutShort(f) then EIO else EINVAL
  {
    if |f| < AD_HEADER_SIZE {
      return Err(EIO);
    }
    if Get32(f, 0) != AD_MAGIC || Get32(f, 4) != AD_VERSION {
      return Err(EINVAL);
    }
    var count := Get16(f, 24);
    if count == 0 || count > 32 {
      return Err(EINVAL);
    }
    var info := AdInfo(NO_ENTRY, NO_ENTRY);
    for i := 0 to count
      invariant TableFits(f, i)
      invariant forall j :: 0 <= j < i ==> EntryOk(f, j)
      invariant info == AdInfo(EntryOf(f, AD_FINDER_ID, i), EntryOf(f, AD_RESOURCE_ID, i))
    {
      var at := AD_HEADER_SIZE + AD_ENTRY_SIZE * i;
      if |f| < at + AD_ENTRY_SIZE {
        return Err(EIO);
      }
      var parsed := AdEntry(Get32(f, at), Get32(f, at + 4), Get32(f, at + 8), at);
      assert parsed == EntryAt(f, i);
      if parsed.offset + parsed.length > |f| {
        assert !EntryOk(f, i);
        return Err(EINVAL);
      }
      if parsed.id == AD_FINDER_ID {
        if info.finder.offset != 0 {
          assert !EntryOk(f, i);
          return Err(EINVAL);
        }
        EarlierPlaceless(f, AD_FINDER_ID, i);
        info := info.(finder := parsed);
      }
      if parsed.id == AD_RESOURCE_ID {
        if info.resource.offset != 0 {
          assert !EntryOk(f, i);
          return Err(EINVAL);
        }
        EarlierPlaceless(f, AD_RESOURCE_ID, i);
        info := info.(resource := parsed);
      }
    }
    return Ok(info);
  }

  /** While every descriptor so far passes, the last one of an id tells whether any had a place. */
  lemma EarlierPlaceless(f: File, id: int, n: nat)
    requires Special(id) && TableFits(f, n)
    requires forall j :: 0 <= j < n ==> EntryOk(f, j)
    requires EntryOf(f, id, n).offset == 0
    ensures forall j :: 0 <= j < n && EntryAt(f, j).id == id ==> EntryAt(f, j).offset == 0
  {
    var k := LastOf(f, id, n);
    if k >= 0 {
      assert EntryOk(f, k);
    }
  }

  // ----- a sidecar byte by byte

  /** The header and the table of a sidecar with a FinderInfo at 50 and a fork of 66051 bytes at 82. */
  const SAMPLE: seq<byte> :=
    [0x00, 0x05, 0x16, 0x07] + [0x00, 0x02, 0x00, 0x00] + Zeros(16) + [0x00, 0x02]
    + [0x00, 0x00, 0x00, 0x09] + [0x00, 0x00, 0x00, 0x32] + [0x00, 0x00, 0x00, 0x20]
    + [0x00, 0x00, 0x00, 0x02] + [0x00, 0x00, 0x00, 0x52] + [0x00, 0x01, 0x02, 0x03]

  /** Such a file is accepted, and both parts are what follows the table. */
  lemma SampleAccepted(info: seq<byte>, fork: seq<byte>)
    requires |info| == 32 && |fork| == 66051
    ensures var f := SAMPLE + info + fork;
      && Accepted(f) && InfoOf(f).finder == AdEntry(9, 50, 32, 26) && InfoOf(f).resource == AdEntry(2, 82, 66051, 38)
      && FinderInfo(f) == info && Fork(f) == fork
  {
    var f := SAMPLE + info + fork;
    assert f[..50] == SAMPLE;
    SampleFields(f);
    SampleInfo(f);
    assert f[50..82] == info && f[82..] == fork;
  }

  lemma SampleFields(f: File)
    requires |f| >= 50 && f[..50] == SAMPLE
    ensures HeaderOk(f) && Count(f) == 2
    ensures EntryAt(f, 0) == AdEntry(9, 50, 32, 26) && EntryAt(f, 1) == AdEntry(2, 82, 66051, 38)
  {
    hide Get32;
    WordAt(f, 0, [0x00, 0x05, 0x16, 0x07]);
    WordAt(f, 4, [0x00, 0x02, 0x00, 0x00]);
    assert f[24] == SAMPLE[24] && f[25] == SAMPLE[25];
    WordAt(f, 26, [0x00, 0x00, 0x00, 0x09]);
    WordAt(f, 30, [0x00, 0x00, 0x00, 0x32]);
    WordAt(f, 34, [0x00, 0x00, 0x00, 0x20]);
    WordAt(f, 38, [0x00, 0x00, 0x00, 0x02]);
    WordAt(f, 42, [0x00, 0x00, 0x00, 0x52]);
    WordAt(f, 46, [0x00, 0x01, 0x02, 0x03]);
  }

  lemma WordAt(f: File, at: nat, w: seq<byte>)
    requires at + 4 <= 50 <= |f| && f[..50] == SAMPLE && |w| == 4 && SAMPLE[at..at + 4] == w
    ensures Get32(f, at) == w[0] as int * 0x100_0000 + w[1] as int * 0x1_0000 + w[2] as int * 0x100 + w[3] as int
  {
    hide SAMPLE;
    var word := f[at..at + 4];
    assert word == f[..50][at..at + 4] == w;
    assert f[at] == word[0] && f[at + 1] == word[1] && f[at + 2] == word[2] && f[at + 3] == word[3];
  }

  lemma SampleInfo(f: File)
    requires |f| == 82 + 66051 && HeaderOk(f) && Count(f) == 2
    requires EntryAt(f, 0) == AdEntry(9, 50, 32, 26) && EntryAt(f, 1) == AdEntry(2, 82, 66051, 38)
    ensures Accepted(f) && InfoOf(f) == AdInfo(EntryAt(f, 0), EntryAt(f, 1))
  {
    hide Get32, Get16;
    assert LastOf(f, AD_FINDER_ID, 2) == 0 && LastOf(f, AD_RESOURCE_ID, 2) == 1;
  }

  // ----- what a sidecar file means

  /** What a read gives: no FinderInfo, all zeros, unless its descriptor has a place and all 32 bytes. */
  function FinderInfo(f: File): (v: seq<byte>)
    requires Accepted(f)
    ensures |v| == 32
  {
    var fe := InfoOf(f).finder;
    if fe.offset == 0 || fe.length < 32 then Zeros(32) else f[fe.offset..fe.offset + 32]
  }

  function Fork(f: File): (v: seq<byte>)
    requires Accepted(f)
    ensures |v| == InfoOf(f).resource.length
  {
    var re := InfoOf(f).resource;
    f[re.offset..re.offset + re.length]
  }

  function TableEnd(f: File): nat
    requires HeaderOk(f)
  {
    AD_HEADER_SIZE + AD_ENTRY_SIZE * Count(f)
  }

  /** The index of the fork's descriptor. */
  function ForkIndex(f: File): int
    requires Accepted(f)
  {
    LastOf(f, AD_RESOURCE_ID, Count(f))
  }

  /** FinderInfo and the fork have places after the table. */
  ghost predicate Apart(f: File) {
    Accepted(f) && TableEnd(f) <= InfoOf(f).finder.offset && TableEnd(f) <= InfoOf(f).resource.offset
  }

  /** Every entry but the fork ends by a place in the file. */
  ghost predicate OthersEnd(f: File, end: nat)
    requires Accepted(f)
  {
    forall i :: 0 <= i < Count(f) && i != ForkIndex(f) ==> EntryAt(f, i).offset + EntryAt(f, i).length <= end
  }

  /** Every other entry ends before the fork. */
  ghost predicate Orderly(f: File) {
    Apart(f) && OthersEnd(f, InfoOf(f).resource.offset)
  }

  /** A file whose FinderInfo has its 32 bytes after the table, whose fork ends the file, and whose other
      entries end before the fork. Both layouts below are sound, and so is any other of that shape. */
  ghost predicate Sound(f: File) {
    && Orderly(f) && InfoOf(f).finder.length >= 32
    && InfoOf(f).resource.offset + InfoOf(f).resource.length == |f|
  }

  lemma ApartPlaces(f: File)
    requires Apart(f)
    ensures Accepted(f) && HeaderOk(f) && 0 <= ForkIndex(f) < Count(f) && EntryAt(f, ForkIndex(f)) == InfoOf(f).resource
    ensures AD_HEADER_SIZE <= InfoOf(f).resource.headerOffset
    ensures InfoOf(f).resource.headerOffset + 12 <= TableEnd(f) <= InfoOf(f).resource.offset <= |f|
    ensures 0 < TableEnd(f) <= InfoOf(f).finder.offset <= |f|
  {
  }

  lemma OrderlyPlaces(f: File)
    requires Orderly(f)
    ensures InfoOf(f).finder.offset + InfoOf(f).finder.length <= InfoOf(f).resource.offset
  {
    var k := LastOf(f, AD_FINDER_ID, Count(f));
    assert EntryAt(f, k).id != AD_RESOURCE_ID;
  }

  lemma SoundPlaces(f: File)
    requires Sound(f)
    ensures Accepted(f) && HeaderOk(f) && Orderly(f) && Apart(f)
    ensures 0 < InfoOf(f).finder.offset && InfoOf(f).finder.offset + 32 <= InfoOf(f).resource.offset <= |f|
    ensures InfoOf(f).resource.headerOffset + 12 <= AD_HEADER_SIZE + AD_ENTRY_SIZE * Count(f) <= InfoOf(f).finder.offset
    ensures AD_HEADER_SIZE <= InfoOf(f).resource.headerOffset
    ensures FinderInfo(f) == f[InfoOf(f).finder.offset..InfoOf(f).finder.offset + 32]
    ensures Fork(f) == f[InfoOf(f).resource.offset..]
  {
    ApartPlaces(f);
    OrderlyPlaces(f);
  }

  /** The length a file gives its fork, where another file has the fork's descriptor. */
  function ForkLength(f: File, g: File): nat
    requires Apart(f) && |g| >= TableEnd(f)
  {
    ApartPlaces(f);
    Get32(g, InfoOf(f).resource.headerOffset + 8)
  }

  /** g has f's table but for the length of the fork. */
  ghost predicate Resized(f: File, g: File)
    requires Apart(f)
  {
    ApartPlaces(f);
    var re := InfoOf(f).resource;
    && re.offset <= |g|
    && forall k :: 0 <= k < TableEnd(f) ==> g[k] == f[k] || re.headerOffset + 8 <= k < re.headerOffset + 12
  }

  lemma ResizedEntry(f: File, g: File, i: nat)
    requires Apart(f) && Resized(f, g) && i < Count(f)
    ensures EntryAt(g, i) == if i == ForkIndex(f) then EntryAt(f, i).(length := ForkLength(f, g)) else EntryAt(f, i)
  {
    ApartPlaces(f);
    var r := ForkIndex(f);
    var at := AD_HEADER_SIZE + AD_ENTRY_SIZE * i;
    assert i < r ==> at + 12 <= InfoOf(f).resource.headerOffset;
    assert i > r ==> at >= InfoOf(f).resource.headerOffset + 12;
    assert Get32(g, at) == Get32(f, at) && Get32(g, at + 4) == Get32(f, at + 4);
    assert i != r ==> Get32(g, at + 8) == Get32(f, at + 8);
  }

  lemma {:induction false} SameLastOf(f: File, g: File, id: int, n: nat)
    requires TableFits(f, n) && TableFits(g, n)
    requires forall i :: 0 <= i < n ==> EntryAt(f, i).id == EntryAt(g, i).id
    ensures LastOf(f, id, n) == LastOf(g, id, n)
  {
    if n > 0 {
      SameLastOf(f, g, id, n - 1);
    }
  }

  lemma ResizedTable(f: File, g: File)
    requires Apart(f) && Resized(f, g)
    ensures HeaderOk(g) && Count(g) == Count(f) && TableFits(g, Count(f))
    ensures forall i :: 0 <= i < Count(f) ==>
      EntryAt(g, i).id == EntryAt(f, i).id && EntryAt(g, i).offset == EntryAt(f, i).offset
    ensures LastOf(g, AD_FINDER_ID, Count(f)) == LastOf(f, AD_FINDER_ID, Count(f))
    ensures LastOf(g, AD_RESOURCE_ID, Count(f)) == LastOf(f, AD_RESOURCE_ID, Count(f))
  {
    ApartPlaces(f);
    forall i | 0 <= i < Count(f)
      ensures EntryAt(g, i).id == EntryAt(f, i).id && EntryAt(g, i).offset == EntryAt(f, i).offset
    {
      ResizedEntry(f, g, i);
    }
    SameLastOf(f, g, AD_FINDER_ID, Count(f));
    SameLastOf(f, g, AD_RESOURCE_ID, Count(f));
  }

  lemma ResizedEntryOk(f: File, g: File, i: nat)
    requires Apart(f) && Resized(f, g) && i < Count(f)
    ensures TableFits(g, i + 1)
    ensures EntryOk(g, i) <==>
      if i == ForkIndex(f) then InfoOf(f).resource.offset + ForkLength(f, g) <= |g|
      else EntryAt(f, i).offset + EntryAt(f, i).length <= |g|
  {
    ResizedTable(f, g);
    ResizedEntry(f, g, i);
    ApartPlaces(f);
    assert EntryOk(f, i);
  }

  /** A file with a resized fork is accepted exactly when it holds the fork and every other entry. */
  lemma ResizedAccepted(f: File, g: File)
    requires Apart(f) && Resized(f, g)
    ensures Accepted(g) <==> InfoOf(f).resource.offset + ForkLength(f, g) <= |g| && OthersEnd(f, |g|)
    ensures Accepted(g) ==> Apart(g) && ForkIndex(g) == ForkIndex(f) && TableEnd(g) == TableEnd(f)
    ensures Accepted(g) ==> InfoOf(g) == InfoOf(f).(resource := InfoOf(f).resource.(length := ForkLength(f, g)))
  {
    hide EntryOk, ForkLength, Resized;
    ResizedTable(f, g);
    ApartPlaces(f);
    forall i | 0 <= i < Count(f)
      ensures EntryOk(g, i) <==>
        if i == ForkIndex(f) then InfoOf(f).resource.offset + ForkLength(f, g) <= |g|
        else EntryAt(f, i).offset + EntryAt(f, i).length <= |g|
    {
      ResizedEntryOk(f, g, i);
    }
    if Accepted(g) {
      ResizedEntry(f, g, LastOf(f, AD_FINDER_ID, Count(f)));
      ResizedEntry(f, g, ForkIndex(f));
    }
  }

  /** Other entries keep their ends. */
  lemma ResizedOrderly(f: File, g: File)
    requires Apart(f) && Resized(f, g) && Accepted(g)
    ensures OthersEnd(g, InfoOf(f).resource.offset) <==> OthersEnd(f, InfoOf(f).resource.offset)
  {
    hide ForkLength, Resized, EntryOk;
    ResizedAccepted(f, g);
    forall i | 0 <= i < Count(f) && i != ForkIndex(f) ensures EntryAt(g, i) == EntryAt(f, i) {
      ResizedEntry(f, g, i);
    }
  }

  /** A resized sidecar is sound, with its entries where they were. */
  lemma ResizedSound(f: File, g: File)
    requires Sound(f) && Resized(f, g) && InfoOf(f).resource.offset + ForkLength(f, g) == |g|
    ensures Sound(g)
    ensures InfoOf(g).finder == InfoOf(f).finder
    ensures InfoOf(g).resource == InfoOf(f).resource.(length := |g| - InfoOf(f).resource.offset)
  {
    hide ForkLength, Resized, EntryOk;
    assert OthersEnd(f, |g|);
    ResizedAccepted(f, g);
    ResizedOrderly(f, g);
  }

  // ----- the two layouts a new sidecar gets

  const NETATALK_IDS := [2, 3, 4, 8, 9, 11, 13, 14, 15, 0x8044_4556, 0x8049_4e4f, 0x8053_594e, 0x8053_567e]
  const NETATALK_OFFSETS := [741, 182, 437, 637, 653, 705, 693, 689, 685, 713, 721, 729, 737]
  const NETATALK_LENGTHS := [0, 0, 200, 16, 32, 8, 0, 4, 4, 8, 8, 8, 4]

  function DataOffset(netatalk: bool): nat {
    if netatalk then AD_NETATALK_DATA_OFFSET else AD_MACOS_DATA_OFFSET
  }

  method PutU32(buf: array<byte>, p: nat, v: int)
    requires p + 4 <= buf.Length && 0 <= v <= UINT32_MAX
    modifies buf
    ensures Get32(buf[..], p) == v
    ensures forall k :: 0 <= k < buf.Length && !(p <= k < p + 4) ==> buf[k] == old(buf[k])
  {
    var b := U32(v);
    buf[p], buf[p + 1], buf[p + 2], buf[p + 3] := b[0], b[1], b[2], b[3];
  }

  method PutU16(buf: array<byte>, p: nat, v: int)
    requires p + 2 <= buf.Length && 0 <= v < 0x1_0000
    modifies buf
    ensures Get16(buf[..], p) == v
    ensures forall k :: 0 <= k < buf.Length && !(p <= k < p + 2) ==> buf[k] == old(buf[k])
  {
    var b := U16(v);
    buf[p], buf[p + 1] := b[0], b[1];
  }

  method PutEntry(buf: array<byte>, i: nat, id: int, offset: int, length: int)
    requires AD_HEADER_SIZE + AD_ENTRY_SIZE * (i + 1) <= buf.Length
    requires 0 <= id <= UINT32_MAX && 0 <= offset <= UINT32_MAX && 0 <= length <= UINT32_MAX
    modifies buf
    ensures EntryAt(buf[..], i) == AdEntry(id, offset, length, AD_HEADER_SIZE + AD_ENTRY_SIZE * i)
    ensures forall k :: 0 <= k < AD_HEADER_SIZE + AD_ENTRY_SIZE * i ==> buf[k] == old(buf[k])
    ensures forall k :: AD_HEADER_SIZE + AD_ENTRY_SIZE * (i + 1) <= k < buf.Length ==> buf[k] == old(buf[k])
  {
    var p := AD_HEADER_SIZE + AD_ENTRY_SIZE * i;
    PutU32(buf, p, id);
    PutU32(buf, p + 4, offset);
    PutU32(buf, p + 8, length);
    assert Get32(buf[..], p) == id && Get32(buf[..], p + 4) == offset;
  }

  function TableSize(netatalk: bool): nat {
    if netatalk then 13 else 2
  }

  function LayoutEntry(netatalk: bool, i: nat): AdEntry
    requires i < TableSize(netatalk)
  {
    if netatalk then
      AdEntry(NETATALK_IDS[i], NETATALK_OFFSETS[i], NETATALK_LENGTHS[i], AD_HEADER_SIZE + AD_ENTRY_SIZE * i)
    else if i == 0 then AdEntry(AD_FINDER_ID, 50, 32, AD_HEADER_SIZE)
    else AdEntry(AD_RESOURCE_ID, AD_MACOS_DATA_OFFSET, 0, AD_HEADER_SIZE + AD_ENTRY_SIZE)
  }

  /** The home file system's name: "Netatalk" and spaces, or nothing. */
  function Filler(netatalk: bool): (b: seq<byte>)
    ensures |b| == 16
  {
    if netatalk then [78, 101, 116, 97, 116, 97, 108, 107, 32, 32, 32, 32, 32, 32, 32, 32] else Zeros(16)
  }

  /** A new sidecar: its layout's table, and nothing but zeros after it. */
  ghost predicate LaidOut(f: File, netatalk: bool) {
    && |f| == DataOffset(netatalk)
    && HeaderOk(f) && Count(f) == TableSize(netatalk) && f[8..24] == Filler(netatalk)
    && (forall i :: 0 <= i < TableSize(netatalk) ==> EntryAt(f, i) == LayoutEntry(netatalk, i))
    && (forall k :: AD_HEADER_SIZE + AD_ENTRY_SIZE * TableSize(netatalk) <= k < |f| ==> f[k] == 0)
  }

  method PutSignature(header: array<byte>, netatalk: bool)
    requires header.Length >= AD_HEADER_SIZE
    requires forall k :: 0 <= k < header.Length ==> header[k] == 0
    modifies header
    ensures HeaderOk(header[..]) && Count(header[..]) == TableSize(netatalk)
    ensures header[8..24] == Filler(netatalk)
    ensures forall k :: AD_HEADER_SIZE <= k < header.Length ==> header[k] == 0
  {
    if netatalk {
      var filler := Filler(true);
      forall k | 0 <= k < 16 {
        header[8 + k] := filler[k];
      }
    }
    PutU32(header, 0, AD_MAGIC);
    PutU32(header, 4, AD_VERSION);
    PutU16(header, 24, TableSize(netatalk));
    assert Get32(header[..], 0) == AD_MAGIC && Get32(header[..], 4) == AD_VERSION;
  }

  method PutTable(header: array<byte>, netatalk: bool)
    requires header.Length == DataOffset(netatalk)
    requires HeaderOk(header[..]) && Count(header[..]) == TableSize(netatalk) && header[8..24] == Filler(netatalk)
    requires forall k :: AD_HEADER_SIZE <= k < header.Length ==> header[k] == 0
    modifies header
    ensures LaidOut(header[..], netatalk)
  {
    hide Filler;
    ghost var start := header[..AD_HEADER_SIZE];
    for i := 0 to TableSize(netatalk)
      invariant header[..AD_HEADER_SIZE] == start
      invariant forall j :: 0 <= j < i ==> EntryAt(header[..], j) == LayoutEntry(netatalk, j)
      invariant forall j :: AD_HEADER_SIZE + AD_ENTRY_SIZE * i <= j < header.Length ==> header[j] == 0
    {
      var e := LayoutEntry(netatalk, i);
      ghost var before := header[..];
      PutEntry(header, i, e.id, e.offset, e.length);
      forall j | 0 <= j < i
        ensures EntryAt(header[..], j) == EntryAt(before, j)
      {
        EntrySame(before, header[..], j);
      }
    }
    SameHeader(old(header[..]), header[..]);
    assert header[..][8..24] == header[..AD_HEADER_SIZE][8..24] == start[8..24];
  }

  lemma SameHeader(f: File, g: File)
    requires HeaderOk(f) && |g| >= AD_HEADER_SIZE && f[..AD_HEADER_SIZE] == g[..AD_HEADER_SIZE]
    ensures HeaderOk(g) && Count(g) == Count(f)
  {
    assert forall k :: 0 <= k < AD_HEADER_SIZE ==> f[..AD_HEADER_SIZE][k] == g[..AD_HEADER_SIZE][k];
  }

  /** initialize_ad: whatever the file held, it is left laid out anew. */
  method InitializeAd(file: File, netatalk: bool) returns (r: File)
    ensures LaidOut(r, netatalk)
  {
    var dataOffset := DataOffset(netatalk);
    var header := new byte[dataOffset](_ => 0);
    PutSignature(header, netatalk);
    PutTable(header, netatalk);
    r := Pwrite(Ftruncate(file, dataOffset), header[..], 0);
    assert r == header[..];
  }

  lemma EntrySame(f: File, g: File, i: nat)
    requires TableFits(f, i + 1) && TableFits(g, i + 1)
    requires forall k :: 0 <= k < AD_HEADER_SIZE + AD_ENTRY_SIZE * (i + 1) ==> f[k] == g[k]
    ensures EntryAt(f, i) == EntryAt(g, i)
  {
  }

  /** A new sidecar reads as no FinderInfo and an empty fork. */
  lemma LaidOutSound(f: File, netatalk: bool)
    requires LaidOut(f, netatalk)
    ensures Sound(f) && FinderInfo(f) == Zeros(32) && Fork(f) == []
  {
    var fi, ri := FinderPlace(netatalk), ForkPlace(netatalk);
    LaidOutEntries(f, netatalk);
    assert LastOf(f, AD_FINDER_ID, Count(f)) == fi;
    assert LastOf(f, AD_RESOURCE_ID, Count(f)) == ri;
    LayoutPlaces(netatalk);
    hide LayoutEntry, LastOf, EntryOk;
    assert EntryAt(f, fi) == LayoutEntry(netatalk, fi) && EntryAt(f, ri) == LayoutEntry(netatalk, ri);
  }

  function FinderPlace(netatalk: bool): nat {
    if netatalk then 4 else 0
  }

  function ForkPlace(netatalk: bool): nat {
    if netatalk then 0 else 1
  }

  lemma LayoutPlaces(netatalk: bool)
    ensures var e := LayoutEntry(netatalk, FinderPlace(netatalk));
      AD_HEADER_SIZE + AD_ENTRY_SIZE * TableSize(netatalk) <= e.offset && e.length == 32
    ensures var e := LayoutEntry(netatalk, ForkPlace(netatalk)); e.offset == DataOffset(netatalk) && e.length == 0
  {
  }

  lemma LaidOutEntries(f: File, netatalk: bool)
    requires LaidOut(f, netatalk)
    ensures forall i :: 0 <= i < TableSize(netatalk) ==>
      && EntryOk(f, i)
      && (EntryAt(f, i).id == AD_FINDER_ID <==> i == FinderPlace(netatalk))
      && (EntryAt(f, i).id == AD_RESOURCE_ID <==> i == ForkPlace(netatalk))
      && EntryAt(f, i).offset + EntryAt(f, i).length <= DataOffset(netatalk)
  {
    forall i | 0 <= i < TableSize(netatalk)
      ensures EntryAt(f, i) == LayoutEntry(netatalk, i)
      ensures (EntryAt(f, i).id == AD_FINDER_ID <==> i == FinderPlace(netatalk))
      ensures (EntryAt(f, i).id == AD_RESOURCE_ID <==> i == ForkPlace(netatalk))
      ensures EntryAt(f, i).offset + EntryAt(f, i).length <= DataOffset(netatalk)
    {
    }
  }

  // ----- the layouts, byte by byte

  /** Where the entries of the Netatalk layout lie, in the order of their places. */
  const NETATALK_ORDER := [1, 2, 3, 4, 8, 7, 6, 5, 9, 10, 11, 12, 0]

  /** The entries of the Netatalk layout have places of their own, one after the other, between the table and the file's
      end. */
  lemma LayoutApart(i: nat)
    requires i < 13
    ensures var at, e := NETATALK_ORDER[i], LayoutEntry(true, NETATALK_ORDER[i]);
      && AD_HEADER_SIZE + AD_ENTRY_SIZE * 13 <= e.offset && e.offset + e.length <= DataOffset(true)
      && (i < 12 ==> e.offset + e.length <= LayoutEntry(true, NETATALK_ORDER[i + 1]).offset)
      && (i < 12 ==> e.offset < LayoutEntry(true, NETATALK_ORDER[i + 1]).offset)
    ensures LayoutEntry(true, 0).id == 2 && LayoutEntry(true, 4) == AdEntry(9, 653, 32, 74)
    ensures LayoutEntry(true, 0) == AdEntry(2, 741, 0, 26)
  {
  }

  /** A new file of the other layout, the macOS one. */
  lemma NewFileBytes(f: File)
    requires LaidOut(f, false)
    ensures f == [0x00, 0x05, 0x16, 0x07] + [0x00, 0x02, 0x00, 0x00] + Zeros(16) + [0x00, 0x02]
      + [0x00, 0x00, 0x00, 0x09] + [0x00, 0x00, 0x00, 0x32] + [0x00, 0x00, 0x00, 0x20]
      + [0x00, 0x00, 0x00, 0x02] + [0x00, 0x00, 0x00, 0x52] + [0x00, 0x00, 0x00, 0x00] + Zeros(32)
  {
    WordsAre();
    hide Get32, Get16, U32, U16;
    Get32Bytes(f, 0);
    Get32Bytes(f, 4);
    Get16Bytes(f, 24);
    assert EntryAt(f, 0) == LayoutEntry(false, 0) && EntryAt(f, 1) == LayoutEntry(false, 1);
    Get32Bytes(f, 26);
    Get32Bytes(f, 30);
    Get32Bytes(f, 34);
    Get32Bytes(f, 38);
    Get32Bytes(f, 42);
    Get32Bytes(f, 46);
    assert f[50..] == Zeros(32);
    assert f == f[0..4] + f[4..8] + f[8..24] + f[24..26] + f[26..30] + f[30..34] + f[34..38] + f[38..42] + f[42..46]
      + f[46..50] + f[50..];
  }

  lemma WordsAre()
    ensures U32(AD_MAGIC) == [0x00, 0x05, 0x16, 0x07] && U32(AD_VERSION) == [0x00, 0x02, 0x00, 0x00]
    ensures U16(2) == [0x00, 0x02] && U32(9) == [0x00, 0x00, 0x00, 0x09] && U32(2) == [0x00, 0x00, 0x00, 0x02]
    ensures U32(50) == [0x00, 0x00, 0x00, 0x32] && U32(32) == [0x00, 0x00, 0x00, 0x20]
    ensures U32(82) == [0x00, 0x00, 0x00, 0x52] && U32(0) == [0x00, 0x00, 0x00, 0x00]
  {
  }

  /** A file of empty descriptors is accepted exactly when it has between 1 and 32 of them. */
  lemma EmptyDescriptors(n: nat)
    requires n < 0x1_0000
    ensures var f := [0x00, 0x05, 0x16, 0x07] + [0x00, 0x02, 0x00, 0x00] + Zeros(16) + U16(n) + Zeros(12 * n);
      Accepted(f) <==> 1 <= n <= 32
  {
    var f := [0x00, 0x05, 0x16, 0x07] + [0x00, 0x02, 0x00, 0x00] + Zeros(16) + U16(n) + Zeros(12 * n);
    assert f[24] == U16(n)[0] && f[25] == U16(n)[1] && Get16(f, 24) == Get16(U16(n), 0) == n;
    assert f[0] == 0 && f[1] == 5 && f[2] == 0x16 && f[3] == 7 && f[4] == 0 && f[5] == 2 && f[6] == 0 && f[7] == 0;
    assert Get32(f, 0) == AD_MAGIC && Get32(f, 4) == AD_VERSION;
    assert forall k :: 26 <= k < |f| ==> f[k] == 0;
    if HeaderOk(f) {
      hide HeaderOk;
      forall i | 0 <= i < n ensures EntryOk(f, i) {
        EmptyEntry(f, i);
      }
    }
  }

  lemma EmptyEntry(f: File, i: nat)
    requires TableFits(f, i + 1) && forall k :: 26 <= k < |f| ==> f[k] == 0
    ensures EntryOk(f, i)
  {
    var at := AD_HEADER_SIZE + AD_ENTRY_SIZE * i;
    assert Get32(f, at) == 0 && Get32(f, at + 4) == 0 && Get32(f, at + 8) == 0;
  }
}
