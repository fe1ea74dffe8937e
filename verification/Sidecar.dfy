/** The FinderInfo and resource-fork operations of daemon/metadata.c on the sidecar file, and the pair of
    values, 32 bytes and a byte sequence, that they keep. */
module Sidecar {
  import opened Bytes
  import opened AppleDouble

  /** What a sidecar is for: a FinderInfo, all zeros when there is none, and a resource fork. */
  datatype AdState = AdState(info: seq<byte>, fork: seq<byte>)

  const EMPTY := AdState(Zeros(32), [])

  /** The sidecar as its readers take it: a missing or rejected file is an empty one. */
  function View(files: map<Path, File>, sidecar: Path): (s: AdState)
    ensures |s.info| == 32
  {
    if sidecar in files && Accepted(files[sidecar]) then AdState(FinderInfo(files[sidecar]), Fork(files[sidecar]))
    else EMPTY
  }

  /** No sidecar, one a write starts anew, or one a write changes in place. */
  ghost predicate Usable(files: map<Path, File>, sidecar: Path) {
    sidecar in files && Accepted(files[sidecar]) ==> Sound(files[sidecar])
  }

  /** A write at 0 replaces the fork; one past it overlays the fork, keeps its tail and fills a gap with zeros. */
  function Written(fork: seq<byte>, data: seq<byte>, offset: nat): seq<byte> {
    if offset == 0 then data else Pwrite(fork, data, offset)
  }

  /** Only the sidecar's file differs. */
  ghost predicate OnlyAt(before: map<Path, File>, after: map<Path, File>, sidecar: Path) {
    && sidecar in after
    && forall p :: p != sidecar ==> (p in after <==> p in before) && (p in after ==> after[p] == before[p])
  }

  lemma OnlyAtAgain(before: map<Path, File>, between: map<Path, File>, sidecar: Path, f: File)
    requires OnlyAt(before, between, sidecar)
    ensures OnlyAt(before, between[sidecar := f], sidecar)
  {
  }

  /** open_ad for reading. */
  method OpenForReading(disk: Disk, sidecar: Path) returns (r: Result<AdInfo>)
    ensures r.Ok? <==> sidecar in disk.files && Accepted(disk.files[sidecar])
    ensures r.Ok? ==> r.value == InfoOf(disk.files[sidecar])
    ensures r == Err(ENOATTR) <==> sidecar !in disk.files
  {
    if sidecar !in disk.files {
      return Err(ENOATTR);
    }
    r := ReadAdInfo(disk.files[sidecar]);
  }

  /** open_ad for writing: a missing or rejected file is laid out anew. */
  method OpenForWriting(disk: Disk, sidecar: Path, netatalk: bool) returns (info: AdInfo)
    modifies disk
    ensures OnlyAt(old(disk.files), disk.files, sidecar)
    ensures Accepted(disk.files[sidecar]) && info == InfoOf(disk.files[sidecar])
    ensures if old(sidecar in disk.files && Accepted(disk.files[sidecar]))
            then disk.files == old(disk.files) else LaidOut(disk.files[sidecar], netatalk) && Sound(disk.files[sidecar])
    ensures View(disk.files, sidecar) == old(View(disk.files, sidecar))
  {
    if sidecar !in disk.files {
      disk.files := disk.files[sidecar := []];
    }
    var r := ReadAdInfo(disk.files[sidecar]);
    if r.Err? {
      var file := InitializeAd(disk.files[sidecar], netatalk);
      disk.files := disk.files[sidecar := file];
      LaidOutSound(file, netatalk);
      r := ReadAdInfo(file);
    }
    info := r.value;
  }

  /** ad_finder_get: the FinderInfo, or no attribute when it is all zeros. */
  method AdFinderGet(disk: Disk, sidecar: Path) returns (r: Result<seq<byte>>)
    ensures r.Ok? <==> View(disk.files, sidecar).info != Zeros(32)
    ensures r.Ok? ==> r.value == View(disk.files, sidecar).info
    ensures r.Err? && (sidecar in disk.files ==> Accepted(disk.files[sidecar])) ==> r.error == ENOATTR
  {
    var open := OpenForReading(disk, sidecar);
    if open.Err? {
      return Err(open.error);
    }
    var info, file := open.value, disk.files[sidecar];
    if info.finder.offset == 0 || info.finder.length < 32 {
      return Err(ENOATTR);
    }
    var value := Pread(file, 32, info.finder.offset);
    if |value| != 32 {
      return Err(EIO);
    }
    if value == Zeros(32) {
      return Err(ENOATTR);
    }
    return Ok(value);
  }

  /** The file is laid out anew, or its FinderInfo has a place after the table. */
  ghost predicate InfoApart(files: map<Path, File>, sidecar: Path) {
    sidecar in files && Accepted(files[sidecar]) ==> TableEnd(files[sidecar]) <= InfoOf(files[sidecar]).finder.offset
  }

  /** The file is laid out anew, or its descriptor of FinderInfo has all 32 bytes. */
  predicate HasRoom(files: map<Path, File>, sidecar: Path) {
    sidecar in files && Accepted(files[sidecar]) ==> InfoOf(files[sidecar]).finder.length >= 32
  }

  /** The 32 bytes of a FinderInfo do not touch the fork. */
  predicate OffFork(f: File)
    requires Accepted(f)
  {
    var fe, re := InfoOf(f).finder, InfoOf(f).resource;
    fe.offset + 32 <= re.offset || re.offset + re.length <= fe.offset
  }

  /** ad_finder_set. What is set is read back exactly when the descriptor has room for it. */
  method AdFinderSet(disk: Disk, sidecar: Path, netatalk: bool, value: seq<byte>) returns (r: Result<()>)
    requires |value| == 32
    modifies disk
    ensures OnlyAt(old(disk.files), disk.files, sidecar) && sidecar in disk.files
    ensures old(Usable(disk.files, sidecar)) ==>
      && r.Ok? && Usable(disk.files, sidecar)
      && View(disk.files, sidecar) == old(View(disk.files, sidecar)).(info := value)
    ensures r.Err? <==> old(sidecar in disk.files && Accepted(disk.files[sidecar])
                            && InfoOf(disk.files[sidecar]).finder.offset == 0)
    ensures r.Err? ==> r.error == EIO && disk.files == old(disk.files)
    ensures old(InfoApart(disk.files, sidecar)) ==>
      r.Ok? && View(disk.files, sidecar).info == if old(HasRoom(disk.files, sidecar)) then value else Zeros(32)
    ensures old(InfoApart(disk.files, sidecar) && sidecar in disk.files && Accepted(disk.files[sidecar])
                && OffFork(disk.files[sidecar])) ==>
      View(disk.files, sidecar).fork == old(View(disk.files, sidecar)).fork
    ensures old(InfoApart(disk.files, sidecar) && sidecar in disk.files && Accepted(disk.files[sidecar])) ==>
      Accepted(disk.files[sidecar]) && InfoOf(disk.files[sidecar]) == old(InfoOf(disk.files[sidecar]))
    ensures old(sidecar in disk.files && Apart(disk.files[sidecar])) ==>
      SameShape(old(disk.files[sidecar]), disk.files[sidecar])
    ensures old(sidecar in disk.files && Accepted(disk.files[sidecar])) && r.Ok? ==>
      disk.files[sidecar] == old(Pwrite(disk.files[sidecar], value, InfoOf(disk.files[sidecar]).finder.offset))
  {
    hide OnlyAt, Sound, Accepted, InfoOf, FinderInfo, Fork, Pwrite, LaidOut, OffFork, TableEnd, SameShape, Apart;
    if sidecar in disk.files {
      OrderlyAccepted(disk.files[sidecar]);
    }
    var info := OpenForWriting(disk, sidecar, netatalk);
    var file := disk.files[sidecar];
    if info.finder.offset == 0 {
      PlacedApart(file);
      return Err(EIO);
    }
    PlacedApart(file);
    if Sound(file) {
      FinderPatched(file, value);
    }
    if TableEnd(file) <= info.finder.offset {
      FinderLands(file, value);
    }
    if Apart(file) {
      FinderShape(file, value);
    }
    var patched := Pwrite(file, value, info.finder.offset);
    OnlyAtAgain(old(disk.files), disk.files, sidecar, patched);
    disk.files := disk.files[sidecar := patched];
    return Ok(());
  }

  lemma PlacedApart(f: File)
    requires Accepted(f)
    ensures Sound(f) ==> 0 < TableEnd(f) <= InfoOf(f).finder.offset && InfoOf(f).finder.length >= 32
    ensures Sound(f) ==> 0 < InfoOf(f).resource.offset
    ensures TableEnd(f) > 0
  {
    if Sound(f) {
      SoundPlaces(f);
    }
  }

  /** A file with the same table and no byte fewer is accepted with the same entries. */
  lemma SameTable(f: File, g: File)
    requires Accepted(f) && |g| >= |f| && forall k :: 0 <= k < TableEnd(f) ==> g[k] == f[k]
    ensures Accepted(g) && InfoOf(g) == InfoOf(f) && TableEnd(g) == TableEnd(f) && ForkIndex(g) == ForkIndex(f)
    ensures forall i :: 0 <= i < Count(f) ==> EntryAt(g, i) == EntryAt(f, i)
  {
    assert HeaderOk(g) && Count(g) == Count(f);
    forall i | 0 <= i < Count(f) ensures EntryAt(g, i) == EntryAt(f, i) {
      EntrySame(f, g, i);
    }
    forall i | 0 <= i < Count(f) ensures EntryOk(g, i) {
      assert EntryOk(f, i);
    }
    SameLastOf(f, g, AD_FINDER_ID, Count(f));
    SameLastOf(f, g, AD_RESOURCE_ID, Count(f));
  }

  /** Both files have the same entries in the same places. */
  ghost predicate SameShape(f: File, g: File) {
    && Apart(f) && Apart(g) && InfoOf(g) == InfoOf(f) && TableEnd(g) == TableEnd(f)
    && forall n :: OthersEnd(g, n) <==> OthersEnd(f, n)
  }

  /** A FinderInfo written after the table is read back exactly when its descriptor has room. */
  lemma FinderLands(f: File, value: seq<byte>)
    requires Accepted(f) && TableEnd(f) <= InfoOf(f).finder.offset && |value| == 32
    ensures var g := Pwrite(f, value, InfoOf(f).finder.offset);
      && Accepted(g) && InfoOf(g) == InfoOf(f) && FinderInfo(g) == (if InfoOf(f).finder.length >= 32 then value else Zeros(32))
      && (OffFork(f) ==> Fork(g) == Fork(f))
  {
    hide InfoOf, EntryOk, HeaderOk, TableEnd;
    var g := Pwrite(f, value, InfoOf(f).finder.offset);
    PlacedApart(f);
    SameTable(f, g);
  }

  lemma FinderShape(f: File, value: seq<byte>)
    requires Apart(f) && |value| == 32
    ensures SameShape(f, Pwrite(f, value, InfoOf(f).finder.offset))
  {
    hide InfoOf, EntryOk, HeaderOk, TableEnd, EntryAt, LastOf;
    ApartPlaces(f);
    SameTable(f, Pwrite(f, value, InfoOf(f).finder.offset));
  }

  lemma ShapeAccepted(f: File, g: File)
    requires SameShape(f, g)
    ensures Accepted(g) && InfoOf(g).resource.offset > 0
  {
  }

  lemma OrderlyAccepted(f: File)
    ensures Orderly(f) ==> Apart(f)
    ensures Apart(f) ==> Accepted(f)
    ensures Apart(f) ==> InfoOf(f).finder.offset > 0 && TableEnd(f) <= InfoOf(f).finder.offset
  {
  }

  /** Writing FinderInfo leaves the table and the fork alone. */
  lemma FinderPatched(f: File, value: seq<byte>)
    requires Sound(f) && |value| == 32
    ensures var g := Pwrite(f, value, InfoOf(f).finder.offset);
      Sound(g) && FinderInfo(g) == value && Fork(g) == Fork(f)
  {
    hide Accepted, InfoOf, HeaderOk, FinderInfo, Fork;
    SoundPlaces(f);
    var g := Pwrite(f, value, InfoOf(f).finder.offset);
    assert |g| == |f|;
    SameTable(f, g);
    FinderLands(f, value);
  }

  /** ad_resource_size: an empty fork is no attribute. */
  method AdResourceSize(disk: Disk, sidecar: Path) returns (r: Result<nat>)
    ensures r.Ok? <==> View(disk.files, sidecar).fork != []
    ensures r.Ok? ==> r.value == |View(disk.files, sidecar).fork|
  {
    var open := OpenForReading(disk, sidecar);
    if open.Err? {
      return Err(open.error);
    }
    return if open.value.resource.length != 0 then Ok(open.value.resource.length) else Err(ENOATTR);
  }

  /** ad_resource_read: the bytes of the range that the fork has. */
  method AdResourceRead(disk: Disk, sidecar: Path, size: nat, offset: int) returns (r: Result<seq<byte>>)
    ensures r.Ok? <==> sidecar in disk.files && Accepted(disk.files[sidecar])
    ensures r.Ok? ==> r.value == if offset < 0 then [] else Pread(View(disk.files, sidecar).fork, size, offset)
  {
    hide Accepted, InfoOf, Pread, FinderInfo, Fork;
    var open := OpenForReading(disk, sidecar);
    if open.Err? {
      return Err(open.error);
    }
    var resource := open.value.resource;
    if offset >= 0 {
      ForkRange(disk.files[sidecar], size, offset);
    }
    if offset < 0 || offset >= resource.length {
      return Ok([]);
    }
    var available := resource.length - offset;
    var amount := if size > available then available else size;
    return Ok(Pread(disk.files[sidecar], amount, resource.offset + offset));
  }

  lemma SliceOfSlice(f: File, a: nat, length: nat, i: nat, n: nat)
    requires a + length <= |f| && i + n <= length
    ensures f[a..a + length][i..i + n] == f[a + i..a + i + n]
  {
    var x, y := f[a..a + length][i..i + n], f[a + i..a + i + n];
    assert forall k :: 0 <= k < n ==> x[k] == y[k];
  }

  lemma ForkRange(f: File, size: nat, offset: nat)
    requires Accepted(f)
    ensures var re := InfoOf(f).resource;
      Pread(Fork(f), size, offset) ==
        if offset >= re.length then []
        else Pread(f, if size > re.length - offset then re.length - offset else size, re.offset + offset)
  {
    hide InfoOf, Accepted;
    var re, fork := InfoOf(f).resource, Fork(f);
    if offset < re.length {
      var n := if size > re.length - offset then re.length - offset else size;
      SliceOfSlice(f, re.offset, re.length, offset, n);
      assert Pread(fork, size, offset) == fork[offset..offset + n];
    }
  }

  /** The offsets and sizes a fork write refuses. */
  predicate TooBig(size: nat, offset: int) {
    offset < 0 || offset > UINT32_MAX || size > UINT32_MAX - offset
  }

  /** A write of no bytes past the end of the fork, which writes a length the file does not have. */
  predicate EmptyPastEnd(fork: seq<byte>, data: seq<byte>, offset: int) {
    data == [] && offset > |fork|
  }

  /** The file after the truncation and the write of a fork write's bytes, before its length is set. */
  function BytesWritten(f: File, ro: nat, data: seq<byte>, offset: nat): (h: File) {
    var t := if offset == 0 then Ftruncate(f, ro) else f;
    if |data| > 0 then Pwrite(t, data, ro + offset) else t
  }

  function NewLength(length: nat, size: nat, offset: nat): nat {
    if offset != 0 && offset + size < length then length else offset + size
  }

  /** The file after a fork write. */
  function ForkStored(f: File, data: seq<byte>, offset: nat): File
    requires Accepted(f) && !TooBig(|data|, offset)
  {
    var re := InfoOf(f).resource;
    Pwrite(BytesWritten(f, re.offset, data, offset), U32(NewLength(re.length, |data|, offset)), re.headerOffset + 8)
  }

  /** ad_resource_write. */
  method AdResourceWrite(disk: Disk, sidecar: Path, netatalk: bool, data: seq<byte>, offset: int)
    returns (r: Result<()>)
    modifies disk
    ensures OnlyAt(old(disk.files), disk.files, sidecar) && sidecar in disk.files
    ensures old(Usable(disk.files, sidecar)) ==> (r.Err? <==> TooBig(|data|, offset))
    ensures r.Err? <==>
      TooBig(|data|, offset)
      || old(sidecar in disk.files && Accepted(disk.files[sidecar]) && InfoOf(disk.files[sidecar]).resource.offset == 0)
    ensures r.Err? ==> r.error == EFBIG && View(disk.files, sidecar) == old(View(disk.files, sidecar))
    ensures old(Usable(disk.files, sidecar)) ==> Usable(disk.files, sidecar)
    ensures old(Usable(disk.files, sidecar)) && r.Ok? ==>
      (Accepted(disk.files[sidecar]) <==> !EmptyPastEnd(old(View(disk.files, sidecar)).fork, data, offset))
    ensures old(Usable(disk.files, sidecar)) && r.Ok? && Accepted(disk.files[sidecar]) ==>
      View(disk.files, sidecar) == var s := old(View(disk.files, sidecar)); s.(fork := Written(s.fork, data, offset))
    ensures old(sidecar in disk.files && Orderly(disk.files[sidecar])) && r.Ok? ==>
      Stored(old(disk.files[sidecar]), data, offset, disk.files[sidecar])
    ensures old(sidecar in disk.files && Accepted(disk.files[sidecar])) && r.Ok? ==>
      disk.files[sidecar] == ForkStored(old(disk.files[sidecar]), data, offset)
  {
    hide OnlyAt, Sound, Accepted, InfoOf, FinderInfo, Fork, Written, LaidOut, Pwrite, BytesWritten, Ftruncate, U32, Stored, Orderly, Apart;
    if sidecar in disk.files {
      OrderlyAccepted(disk.files[sidecar]);
    }
    var info := OpenForWriting(disk, sidecar, netatalk);
    var file := disk.files[sidecar];
    PlacedApart(file);
    if offset < 0 || info.resource.offset == 0 || offset > UINT32_MAX || |data| > UINT32_MAX - offset {
      return Err(EFBIG);
    }
    var f := StoreFork(file, info.resource, data, offset);
    OnlyAtAgain(old(disk.files), disk.files, sidecar, f);
    disk.files := disk.files[sidecar := f];
    if Sound(file) {
      ForkWritten(file, data, offset);
    }
    if Orderly(file) {
      ForkWrittenOrderly(file, data, offset);
    }
    return Ok(());
  }

  /** The writes of ad_resource_write: the truncation of a write at 0, the bytes, and the fork's length. */
  method StoreFork(file: File, resource: AdEntry, data: seq<byte>, offset: nat) returns (f: File)
    requires !TooBig(|data|, offset) && Accepted(file) && resource == InfoOf(file).resource
    ensures f == ForkStored(file, data, offset)
  {
    hide Accepted, InfoOf, Pwrite, Ftruncate, U32;
    f := file;
    if offset == 0 {
      f := Ftruncate(f, resource.offset);
    }
    if |data| > 0 {
      f := Pwrite(f, data, resource.offset + offset);
    }
    var end := offset + |data|;
    if offset != 0 && end < resource.length {
      end := resource.length;
    }
    var length := U32(end);
    f := Pwrite(f, length, resource.headerOffset + 8);
  }

  /** A fork write changes no byte of the table but the fork's length, and after the table the fork's bytes alone. */
  lemma StoredResized(f: File, data: seq<byte>, offset: nat)
    requires Apart(f) && !TooBig(|data|, offset)
    ensures var g, h := ForkStored(f, data, offset), BytesWritten(f, InfoOf(f).resource.offset, data, offset);
      && Resized(f, g) && |g| == |h| && ForkLength(f, g) == NewLength(InfoOf(f).resource.length, |data|, offset)
      && forall k :: TableEnd(f) <= k < |g| ==> g[k] == h[k]
  {
    hide Accepted, InfoOf, Pwrite, BytesWritten, U32, Get32;
    ApartPlaces(f);
    var re := InfoOf(f).resource;
    var h, b := BytesWritten(f, re.offset, data, offset), U32(NewLength(re.length, |data|, offset));
    BytesKept(f, re.offset, data, offset);
    LengthPatched(h, b, re.headerOffset + 8);
  }

  lemma BytesKept(f: File, ro: nat, data: seq<byte>, offset: nat)
    requires ro <= |f|
    ensures var h := BytesWritten(f, ro, data, offset);
      && ro <= |h| && (forall k :: 0 <= k < ro ==> h[k] == f[k])
      && |h| == if offset == 0 then ro + |data| else if data != [] && ro + offset + |data| > |f| then ro + offset + |data|
                else |f|
  {
  }

  lemma LengthPatched(h: File, b: seq<byte>, at: nat)
    requires |b| == 4 && at + 4 <= |h|
    ensures var g := Pwrite(h, b, at);
      |g| == |h| && Get32(g, at) == Get32(b, 0) && forall k :: 0 <= k < |h| && !(at <= k < at + 4) ==> g[k] == h[k]
  {
  }

  /** No byte between the fork's end and a place after it is left over from something else. */
  predicate NoStale(f: File, offset: nat)
    requires Accepted(f)
  {
    var re := InfoOf(f).resource;
    forall k :: re.offset + re.length <= k < re.offset + offset && k < |f| ==> f[k] == 0
  }

  /** What a fork write to an orderly file leaves: an orderly file and the same FinderInfo, unless it writes no bytes
      past the file's end. The fork is then what Written says exactly unless the write has no bytes and starts past the
      fork's end, or the gap before it has left-over bytes. */
  ghost predicate Stored(f: File, data: seq<byte>, offset: nat, g: File)
    requires Orderly(f)
  {
    && (Accepted(g) <==> !(data == [] && InfoOf(f).resource.offset + offset > |f|))
    && (Accepted(g) ==> Orderly(g) && FinderInfo(g) == FinderInfo(f) && InfoOf(g).finder == InfoOf(f).finder)
    && (Accepted(g) ==>
          (Fork(g) == Written(Fork(f), data, offset) <==>
             if data == [] then offset <= |Fork(f)| else offset == 0 || NoStale(f, offset)))
  }

  lemma ForkWrittenOrderly(f: File, data: seq<byte>, offset: nat)
    requires Orderly(f) && !TooBig(|data|, offset)
    ensures Stored(f, data, offset, ForkStored(f, data, offset))
  {
    hide Accepted, Fork, FinderInfo, InfoOf, ForkStored, BytesWritten, Resized, ForkLength, OthersEnd, NoStale, Written;
    var g, ro := ForkStored(f, data, offset), InfoOf(f).resource.offset;
    ApartPlaces(f);
    StoredResized(f, data, offset);
    BytesKept(f, ro, data, offset);
    StoredOthers(f, |g|);
    ResizedAccepted(f, g);
    if Accepted(g) {
      ResizedOrderly(f, g);
      StoredFinder(f, g);
      StoredFork(f, data, offset);
    }
  }

  lemma StoredOthers(f: File, n: nat)
    requires Orderly(f) && n >= InfoOf(f).resource.offset
    ensures OthersEnd(f, n)
  {
  }

  lemma StoredFinder(f: File, g: File)
    requires Orderly(f) && Accepted(g) && InfoOf(g).finder == InfoOf(f).finder && InfoOf(f).resource.offset <= |g|
    requires forall k :: TableEnd(f) <= k < InfoOf(f).resource.offset ==> g[k] == f[k]
    ensures FinderInfo(g) == FinderInfo(f)
  {
    ApartPlaces(f);
    OrderlyPlaces(f);
  }

  lemma StoredFork(f: File, data: seq<byte>, offset: nat)
    requires Orderly(f) && !TooBig(|data|, offset) && Accepted(ForkStored(f, data, offset))
    ensures Fork(ForkStored(f, data, offset)) == Written(Fork(f), data, offset) <==>
      if data == [] then offset <= |Fork(f)| else offset == 0 || NoStale(f, offset)
  {
    hide Accepted, InfoOf, ForkStored, Resized, ForkLength, OthersEnd, BytesWritten, Written, NewLength;
    var g, re := ForkStored(f, data, offset), InfoOf(f).resource;
    ApartPlaces(f);
    StoredResized(f, data, offset);
    ResizedAccepted(f, g);
    var h := BytesWritten(f, re.offset, data, offset);
    SameRange(g, h, TableEnd(f), re.offset, NewLength(re.length, |data|, offset));
    Landing(f, re.offset, re.length, data, offset);
  }

  lemma SameRange(g: File, h: File, start: nat, a: nat, n: nat)
    requires start <= a && a + n <= |g| == |h| && forall k :: start <= k < |g| ==> g[k] == h[k]
    ensures g[a..a + n] == h[a..a + n]
  {
  }

  /** Where the bytes of a fork write land. */
  lemma Landing(f: File, ro: nat, length: nat, data: seq<byte>, offset: nat)
    requires ro + length <= |f|
    requires ro + NewLength(length, |data|, offset) <= |BytesWritten(f, ro, data, offset)|
    ensures BytesWritten(f, ro, data, offset)[ro..ro + NewLength(length, |data|, offset)]
        == Written(f[ro..ro + length], data, offset)
      <==> if data == [] then offset <= length
           else offset == 0 || forall k :: ro + length <= k < ro + offset && k < |f| ==> f[k] == 0
  {
    var h, n := BytesWritten(f, ro, data, offset), NewLength(length, |data|, offset);
    var w := Written(f[ro..ro + length], data, offset);
    if data == [] {
      assert offset > length ==> |h[ro..ro + n]| != |w|;
      assert 0 < offset <= length ==> h[ro..ro + n] == w;
    } else if offset == 0 {
      assert h[ro..ro + n] == w;
    } else {
      assert |w| == n;
      forall k | 0 <= k < n
        ensures h[ro + k] == w[k] <==> (length <= k < offset && ro + k < |f| ==> f[ro + k] == 0)
      {
      }
      if h[ro..ro + n] == w {
        forall k | ro + length <= k < ro + offset && k < |f| ensures f[k] == 0 {
          assert h[ro..ro + n][k - ro] == w[k - ro];
        }
      }
    }
  }

  /** A fork write keeps a sound sidecar sound and does to the fork what Written says, unless it writes no
      bytes past the fork's end: then the length names bytes the file lacks, and the file is refused. */
  lemma ForkWritten(f: File, data: seq<byte>, offset: nat)
    requires Sound(f) && !TooBig(|data|, offset)
    ensures var g := ForkStored(f, data, offset);
      && (Accepted(g) <==> !EmptyPastEnd(Fork(f), data, offset))
      && (Accepted(g) ==> Sound(g) && FinderInfo(g) == FinderInfo(f) && Fork(g) == Written(Fork(f), data, offset))
  {
    hide Accepted, Fork, FinderInfo, InfoOf, ForkStored, BytesWritten, Resized, ForkLength, OthersEnd, Written;
    var g := ForkStored(f, data, offset);
    SoundPlaces(f);
    ForkWrittenOrderly(f, data, offset);
    StoredResized(f, data, offset);
    BytesKept(f, InfoOf(f).resource.offset, data, offset);
    ResizedAccepted(f, g);
  }

  // ----- clearing any file

  /** The file is laid out anew, or both parts have places after its table. */
  ghost predicate Placed(files: map<Path, File>, sidecar: Path) {
    sidecar in files && Accepted(files[sidecar]) ==> Apart(files[sidecar])
  }

  /** The file has no place for FinderInfo, or none for the fork and FinderInfo after its table. */
  ghost predicate Lacking(files: map<Path, File>, sidecar: Path) {
    && sidecar in files && Accepted(files[sidecar])
    && (InfoOf(files[sidecar]).finder.offset == 0
        || (InfoApart(files, sidecar) && InfoOf(files[sidecar]).resource.offset == 0))
  }

  /** The file stays as it is, and its descriptor of FinderInfo has fewer than 32 bytes. */
  ghost predicate Narrow(files: map<Path, File>, sidecar: Path) {
    sidecar in files && Orderly(files[sidecar]) && InfoOf(files[sidecar]).finder.length < 32
  }

  /** What clearing both parts makes of a file: an entry that reaches past the fork's place has it laid out anew at the
      next write, and any other file keeps its shape. */
  lemma ClearsFile(f: File, g: File)
    requires Apart(f) && SameShape(f, g) && g == Pwrite(f, Zeros(32), InfoOf(f).finder.offset)
    ensures var c := ForkStored(g, [], 0);
      && (Accepted(c) <==> Orderly(f))
      && (Orderly(f) ==>
            && Orderly(c) && FinderInfo(c) == Zeros(32) && Fork(c) == [] && InfoOf(c).finder == InfoOf(f).finder
            && (InfoOf(f).finder.length >= 32 ==> Sound(c)))
  {
    hide Accepted, Fork, FinderInfo, InfoOf, ForkStored, BytesWritten, Resized, ForkLength, OthersEnd;
    var c := ForkStored(g, [], 0);
    ApartPlaces(f);
    ApartPlaces(g);
    StoredResized(g, [], 0);
    BytesKept(g, InfoOf(g).resource.offset, [], 0);
    ResizedAccepted(g, c);
    if Accepted(c) {
      ResizedOrderly(g, c);
      StoredFinder(g, c);
      FinderLands(f, Zeros(32));
    }
  }

  ghost predicate AcceptedAt(files: map<Path, File>, sidecar: Path) {
    sidecar in files && Accepted(files[sidecar])
  }

  /** Clearing both parts leaves nothing to read, whatever the file held. */
  lemma Clears(before: map<Path, File>, between: map<Path, File>, after: map<Path, File>, sidecar: Path)
    requires Placed(before, sidecar) && sidecar in between && sidecar in after
    requires !AcceptedAt(before, sidecar) ==> Usable(after, sidecar) && View(after, sidecar) == EMPTY
    requires AcceptedAt(before, sidecar) ==>
      && SameShape(before[sidecar], between[sidecar])
      && between[sidecar] == Pwrite(before[sidecar], Zeros(32), InfoOf(before[sidecar]).finder.offset)
      && after[sidecar] == ForkStored(between[sidecar], [], 0)
    ensures View(after, sidecar) == EMPTY
    ensures if Narrow(before, sidecar) then Narrow(after, sidecar) else Usable(after, sidecar)
  {
    hide Accepted, Orderly, Sound, InfoOf, FinderInfo, Fork, ForkStored, Pwrite, SameShape, Apart;
    if AcceptedAt(before, sidecar) {
      ClearsFile(before[sidecar], between[sidecar]);
    } else if sidecar in before {
      OrderlyAccepted(before[sidecar]);
    }
  }

  /** A write at the end of the fork of a narrow file, as of any orderly one, extends the fork. */
  lemma NarrowGrows(before: map<Path, File>, after: map<Path, File>, sidecar: Path, data: seq<byte>)
    requires Narrow(before, sidecar) && sidecar in after && data != []
    requires Stored(before[sidecar], data, |View(before, sidecar).fork|, after[sidecar])
    ensures Narrow(after, sidecar)
    ensures var s := View(before, sidecar);
      View(after, sidecar) == s.(fork := Written(s.fork, data, |s.fork|))
  {
    hide Accepted, Orderly, InfoOf, FinderInfo, Fork, Written, Apart;
    OrderlyAccepted(before[sidecar]);
  }

  lemma PlacedMeans(files: map<Path, File>, sidecar: Path)
    ensures Placed(files, sidecar) ==> InfoApart(files, sidecar)
    ensures Placed(files, sidecar) && AcceptedAt(files, sidecar) ==> Apart(files[sidecar])
    ensures !AcceptedAt(files, sidecar) ==> Usable(files, sidecar) && View(files, sidecar) == EMPTY
  {
    hide Accepted, InfoOf;
  }

  lemma NarrowMeans(files: map<Path, File>, sidecar: Path)
    requires Narrow(files, sidecar)
    ensures sidecar in files && Orderly(files[sidecar]) && Apart(files[sidecar]) && AcceptedAt(files, sidecar)
    ensures InfoApart(files, sidecar) && !HasRoom(files, sidecar) && !Usable(files, sidecar)
  {
  }

  /** Setting FinderInfo in a narrow file leaves it narrow, with nothing to read. */
  lemma NarrowSet(before: map<Path, File>, after: map<Path, File>, sidecar: Path)
    requires Narrow(before, sidecar) && sidecar in after && SameShape(before[sidecar], after[sidecar])
    requires View(before, sidecar).fork == []
    ensures Narrow(after, sidecar) && View(after, sidecar) == EMPTY
  {
    hide Accepted, InfoOf, OthersEnd;
  }

  // ----- whole runs

  datatype AdOp = SetInfo(value: seq<byte>) | WriteFork(data: seq<byte>, offset: int)

  /** What one operation does to the pair; an empty write past the fork's end loses both parts. */
  function Step(s: AdState, op: AdOp): AdState {
    match op
    case SetInfo(value) => s.(info := value)
    case WriteFork(data, offset) =>
      if TooBig(|data|, offset) then s
      else if EmptyPastEnd(s.fork, data, offset) then EMPTY
      else s.(fork := Written(s.fork, data, offset))
  }

  function Steps(s: AdState, ops: seq<AdOp>): AdState {
    if ops == [] then s else Step(Steps(s, ops[..|ops| - 1]), ops[|ops| - 1])
  }

  /** Every run of the two operations, in either layout and from any usable sidecar, refines the pair. */
  method RunOps(disk: Disk, sidecar: Path, netatalk: bool, ops: seq<AdOp>)
    requires Usable(disk.files, sidecar)
    requires forall i :: 0 <= i < |ops| && ops[i].SetInfo? ==> |ops[i].value| == 32
    modifies disk
    ensures Usable(disk.files, sidecar)
    ensures View(disk.files, sidecar) == Steps(old(View(disk.files, sidecar)), ops)
    ensures forall p :: p != sidecar ==>
      (p in disk.files <==> p in old(disk.files)) && (p in disk.files ==> disk.files[p] == old(disk.files)[p])
  {
    hide Sound, Accepted;
    for i := 0 to |ops|
      invariant Usable(disk.files, sidecar)
      invariant View(disk.files, sidecar) == Steps(old(View(disk.files, sidecar)), ops[..i])
      invariant forall p :: p != sidecar ==>
        (p in disk.files <==> p in old(disk.files)) && (p in disk.files ==> disk.files[p] == old(disk.files)[p])
    {
      assert ops[..i + 1][..i] == ops[..i];
      match ops[i] {
        case SetInfo(value) =>
          var r := AdFinderSet(disk, sidecar, netatalk, value);
        case WriteFork(data, offset) =>
          var r := AdResourceWrite(disk, sidecar, netatalk, data, offset);
      }
    }
    assert ops[..|ops|] == ops;
  }

  /** FinderInfo stored before a fork write is read after it exactly when the write is refused or is not an empty one
      past the end. */
  method SetThenWrite(disk: Disk, sidecar: Path, netatalk: bool, value: seq<byte>, data: seq<byte>, offset: int)
    returns (r: Result<seq<byte>>)
    requires Usable(disk.files, sidecar) && |value| == 32 && value != Zeros(32)
    modifies disk
    ensures r == Ok(value) <==>
      TooBig(|data|, offset) || !EmptyPastEnd(old(View(disk.files, sidecar)).fork, data, offset)
    ensures r != Ok(value) ==> r.Err? && View(disk.files, sidecar) == EMPTY
  {
    hide Sound, Accepted;
    var _ := AdFinderSet(disk, sidecar, netatalk, value);
    var _ := AdResourceWrite(disk, sidecar, netatalk, data, offset);
    r := AdFinderGet(disk, sidecar);
  }

  /** From no sidecar at all, a FinderInfo is lost to an empty write at 1. */
  method EmptyWriteLoses(disk: Disk, sidecar: Path) returns (r: Result<seq<byte>>)
    requires sidecar !in disk.files
    modifies disk
    ensures r.Err?
  {
    var ones := seq(32, _ => 1 as byte);
    assert ones[0] != Zeros(32)[0];
    r := SetThenWrite(disk, sidecar, true, ones, [], 1);
  }

  // ----- files that are accepted and not sound

  /** The descriptors of a file with a FinderInfo of 16 bytes at 50 and an empty fork at 82. */
  function ShortFile(): File {
    U32(AD_MAGIC) + U32(AD_VERSION) + Zeros(16) + U16(2)
    + U32(AD_FINDER_ID) + U32(50) + U32(16) + U32(AD_RESOURCE_ID) + U32(82) + U32(0) + Zeros(32)
  }

  /** Such a file is accepted, and what is set in it is never read back. */
  method ShortLoses(disk: Disk, sidecar: Path, value: seq<byte>) returns (r: Result<seq<byte>>)
    requires sidecar in disk.files && disk.files[sidecar] == ShortFile() && |value| == 32
    modifies disk
    ensures r == Err(ENOATTR)
  {
    ShortOrderly();
    var set_ := AdFinderSet(disk, sidecar, true, value);
    FinderLands(old(disk.files[sidecar]), value);
    r := AdFinderGet(disk, sidecar);
  }

  lemma ShortOrderly()
    ensures Orderly(ShortFile()) && InfoOf(ShortFile()).finder.length == 16
  {
    var f := ShortFile();
    ShortFields();
    hide ShortFile, Get32, Get16;
    assert LastOf(f, AD_FINDER_ID, 2) == 0 && LastOf(f, AD_RESOURCE_ID, 2) == 1;
  }

  lemma ShortFields()
    ensures var f := ShortFile();
      && HeaderOk(f) && Count(f) == 2 && |f| == 82
      && EntryAt(f, 0) == AdEntry(AD_FINDER_ID, 50, 16, 26) && EntryAt(f, 1) == AdEntry(AD_RESOURCE_ID, 82, 0, 38)
  {
    var f := ShortFile();
    hide U32, U16, Get32, Get16;
    assert f[0..4] == U32(AD_MAGIC);
    FieldAt(f, 0, AD_MAGIC);
    assert f[4..8] == U32(AD_VERSION);
    FieldAt(f, 4, AD_VERSION);
    assert f[26..30] == U32(AD_FINDER_ID);
    FieldAt(f, 26, AD_FINDER_ID);
    assert f[30..34] == U32(50);
    FieldAt(f, 30, 50);
    assert f[34..38] == U32(16);
    FieldAt(f, 34, 16);
    assert f[38..42] == U32(AD_RESOURCE_ID);
    FieldAt(f, 38, AD_RESOURCE_ID);
    assert f[42..46] == U32(82);
    FieldAt(f, 42, 82);
    assert f[46..50] == U32(0);
    FieldAt(f, 46, 0);
    HalfAt(f, 24, 2);
  }

  /** A file whose FinderInfo lies on its third descriptor. */
  function TangledFile(): File {
    U32(AD_MAGIC) + U32(AD_VERSION) + Zeros(16) + U16(3)
    + U32(AD_FINDER_ID) + U32(50) + U32(32) + U32(AD_RESOURCE_ID) + U32(82) + U32(0)
    + U32(0) + U32(0) + U32(0) + Zeros(20)
  }

  /** Such a file is accepted and has room for a FinderInfo, and setting one can make it unreadable. */
  method TangledLoses(disk: Disk, sidecar: Path) returns (r: Result<seq<byte>>)
    requires sidecar in disk.files && disk.files[sidecar] == TangledFile()
    modifies disk
    ensures old(Accepted(disk.files[sidecar]) && HasRoom(disk.files, sidecar)) && r.Err?
  {
    hide Accepted, InfoOf, HeaderOk, FinderInfo, Fork, TangledFile, Pwrite, Orderly, Apart, Sound, TableEnd;
    TangledAccepted();
    var value := seq(32, _ => 255 as byte);
    var _ := AdFinderSet(disk, sidecar, true, value);
    TangledRejected(disk.files[sidecar], value);
    r := AdFinderGet(disk, sidecar);
  }

  lemma TangledFields()
    ensures var f := TangledFile();
      && HeaderOk(f) && Count(f) == 3 && |f| == 82
      && EntryAt(f, 0) == AdEntry(AD_FINDER_ID, 50, 32, 26) && EntryAt(f, 1) == AdEntry(AD_RESOURCE_ID, 82, 0, 38)
      && EntryAt(f, 2) == AdEntry(0, 0, 0, 50)
  {
    var f := TangledFile();
    hide U32, U16, Get32, Get16;
    assert f[0..4] == U32(AD_MAGIC);
    FieldAt(f, 0, AD_MAGIC);
    assert f[4..8] == U32(AD_VERSION);
    FieldAt(f, 4, AD_VERSION);
    assert f[26..30] == U32(AD_FINDER_ID);
    FieldAt(f, 26, AD_FINDER_ID);
    assert f[30..34] == U32(50);
    FieldAt(f, 30, 50);
    assert f[34..38] == U32(32);
    FieldAt(f, 34, 32);
    assert f[38..42] == U32(AD_RESOURCE_ID);
    FieldAt(f, 38, AD_RESOURCE_ID);
    assert f[42..46] == U32(82);
    FieldAt(f, 42, 82);
    assert f[46..50] == U32(0);
    FieldAt(f, 46, 0);
    assert f[50..54] == U32(0);
    FieldAt(f, 50, 0);
    assert f[54..58] == U32(0);
    FieldAt(f, 54, 0);
    assert f[58..62] == U32(0);
    FieldAt(f, 58, 0);
    HalfAt(f, 24, 3);
  }

  lemma TangledAccepted()
    ensures Accepted(TangledFile()) && InfoOf(TangledFile()).finder == AdEntry(AD_FINDER_ID, 50, 32, 26)
  {
    var f := TangledFile();
    TangledFields();
    hide TangledFile, Get32, Get16;
    assert LastOf(f, AD_FINDER_ID, 3) == 0 && LastOf(f, AD_RESOURCE_ID, 3) == 1;
  }

  lemma TangledRejected(g: File, value: seq<byte>)
    requires |value| == 32 && (forall k :: 0 <= k < 32 ==> value[k] == 255) && g == Pwrite(TangledFile(), value, 50)
    ensures !Accepted(g)
  {
    TangledFields();
    var f := TangledFile();
    assert g[24] == f[24] && g[25] == f[25];
    assert Get32(g, 54) == UINT32_MAX;
    if HeaderOk(g) {
      assert Count(g) == 3 && EntryAt(g, 2).offset == UINT32_MAX;
      assert !EntryOk(g, 2);
    }
  }

  lemma FieldAt(f: File, at: nat, v: int)
    requires at + 4 <= |f| && 0 <= v <= UINT32_MAX && f[at..at + 4] == U32(v)
    ensures Get32(f, at) == v
  {
    var b := f[at..at + 4];
    assert b[0] == f[at] && b[1] == f[at + 1] && b[2] == f[at + 2] && b[3] == f[at + 3];
    Get32Same(f, at, b, 0);
  }

  lemma HalfAt(f: File, at: nat, v: int)
    requires at + 2 <= |f| && 0 <= v < 0x1_0000 && f[at..at + 2] == U16(v)
    ensures Get16(f, at) == v
  {
    var b := f[at..at + 2];
    assert b[0] == f[at] && b[1] == f[at + 1];
  }
}
